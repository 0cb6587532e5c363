/**
 * The bundled timesheet script.  Its second bundle entry is the same
 * calculator as `TimesheetCalc` (transpiled), so it is not modelled twice.  Its
 * first entry is the current-employees page's delete confirmation: a click on
 * submit scans the delete checkboxes and asks for confirmation when any is
 * checked.
 */
module TimesheetDist {
  import opened Wrappers

  predicate AnyChecked(checked: seq<bool>) {
    exists i :: 0 <= i < |checked| && checked[i]
  }

  /** What one click on the submit button leads to. */
  datatype ClickOutcome = SubmitForm | NoAction | Thrown(error: Error)

  /** The checkbox loop: `del_bool` becomes true when some box is checked, and otherwise keeps its value. */
  method ScanDeleteBoxes(checked: seq<bool>, delBool: bool) returns (r: bool)
    ensures r <==> delBool || AnyChecked(checked)
  {
    r := delBool;
    var k := 0;
    while k < |checked|
      invariant 0 <= k <= |checked|
      invariant r <==> delBool || exists i :: 0 <= i < k && checked[i]
    {
      if checked[k] {
        r := true;
      }
      k := k + 1;
    }
  }

  /**
   * The click handler as written.  `delBool` is the `del_bool` variable,
   * declared once per page load outside the handler, so a click can set it but
   * never clears it.  On cancel the handler reads `delete_box[i]` with an `i`
   * that is declared nowhere in scope.  The bundle is strict-mode code, so that
   * read throws and no box is unchecked.
   */
  method ConfirmDelete(checked: seq<bool>, delBool: bool, confirmed: bool)
    returns (delBoolAfter: bool, outcome: ClickOutcome, checkedAfter: seq<bool>)
    ensures delBoolAfter <==> delBool || AnyChecked(checked)
    ensures !delBoolAfter ==> outcome == NoAction
    ensures delBoolAfter && confirmed ==> outcome == SubmitForm
    ensures delBoolAfter && !confirmed ==> outcome == Thrown(ReferenceError("i"))
    ensures checkedAfter == checked
  {
    delBoolAfter := ScanDeleteBoxes(checked, delBool);
    checkedAfter := checked;
    if delBoolAfter {
      if confirmed {
        outcome := SubmitForm;
      } else {
        outcome := Thrown(ReferenceError("i"));
      }
    } else {
      outcome := NoAction;
    }
  }

  /** A cancelled confirmation as evidently intended: every delete box is cleared and nothing is submitted. */
  method ConfirmDeleteFixed(checked: seq<bool>, delBool: bool, confirmed: bool)
    returns (delBoolAfter: bool, outcome: ClickOutcome, checkedAfter: seq<bool>)
    ensures delBoolAfter <==> delBool || AnyChecked(checked)
    ensures outcome == (if delBoolAfter && confirmed then SubmitForm else NoAction)
    ensures |checkedAfter| == |checked|
    ensures delBoolAfter && !confirmed ==> !AnyChecked(checkedAfter)
    ensures !(delBoolAfter && !confirmed) ==> checkedAfter == checked
  {
    delBoolAfter := ScanDeleteBoxes(checked, delBool);
    checkedAfter := checked;
    outcome := NoAction;
    if delBoolAfter {
      if confirmed {
        outcome := SubmitForm;
      } else {
        var j := 0;
        while j < |checkedAfter|
          invariant 0 <= j <= |checkedAfter| == |checked|
          invariant forall i :: 0 <= i < j ==> !checkedAfter[i]
        {
          checkedAfter := checkedAfter[j := false];
          j := j + 1;
        }
      }
    }
  }
}
