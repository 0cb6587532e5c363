/**
 * The timesheet views: pay-period generation (`populate_pay_periods`), the
 * field renaming that makes each day's form unique
 * (`renaming_for_uniqueness`) and the validation pass of `edit_timesheets`
 * that decides which days are locked and whether the submit button shows.
 *
 * The pay-period table is a sequence of rows; dates are day numbers counted
 * from 1970-01-01.
 */
module TimesheetViews {
  import opened Wrappers
  import opened Text
  import opened TimesheetModels
  import TimesheetForms

  // ---------------------------------------------------------------------
  // populate_pay_periods
  // ---------------------------------------------------------------------

  /** 2015-05-25, the start of the first period, as a day number. */
  const FirstPeriodStart: int := 16580

  /** Days from one period start to the next. */
  const PeriodStep: int := 14

  /** The row `PayPeriod.objects.create(date_start=start)` stores: saving runs `clean`, which sets the end. */
  function Created(start: int): (p: PeriodRow)
    ensures p.start == start && p.end == start + 13
    ensures forall day :: Covers(p, day) <==> start <= day < start + PeriodStep
  {
    PeriodRow(start, start + 13)
  }

  /** `latest('date_start')`: the row with the greatest start. */
  function Latest(periods: seq<PeriodRow>): (r: PeriodRow)
    requires |periods| > 0
    ensures r in periods
    ensures forall p :: p in periods ==> p.start <= r.start
  {
    if |periods| == 1 then periods[0]
    else
      var rest := Latest(periods[1..]);
      assert forall p :: p in periods[1..] ==> p.start <= rest.start;
      assert forall p :: p in periods ==> p == periods[0] || p in periods[1..];
      if periods[0].start >= rest.start then periods[0] else rest
  }

  /**
   * Whether the periods of today and of today + 14 are both found.  A lookup
   * that finds no period means "not found"; one that finds several raises.
   */
  function BothFound(periods: seq<PeriodRow>, today: int): Result<bool> {
    match GetPayPeriod(DateArg(today), today, periods)
    case Err(DoesNotExist) => Ok(false)
    case Err(e) => Err(e)
    case Ok(_) =>
      match GetPayPeriod(DateArg(today + PeriodStep), today, periods)
      case Err(DoesNotExist) => Ok(false)
      case Err(e) => Err(e)
      case Ok(_) => Ok(true)
  }

  /** The `while` loop: create the next period while the last one starts and ends before `target`. */
  function GenerateFrom(last: PeriodRow, target: int): (r: seq<PeriodRow>)
    decreases target - last.start
  {
    if last.start < target && last.end < target then
      var next := Created(last.start + PeriodStep);
      [next] + GenerateFrom(next, target)
    else []
  }

  /** The rows `populate_pay_periods` adds. */
  function NewPeriods(periods: seq<PeriodRow>, today: int): Result<seq<PeriodRow>> {
    match BothFound(periods, today)
    case Err(e) => Err(e)
    case Ok(true) => Ok([])
    case Ok(false) =>
      if |periods| == 0 then
        var first := Created(FirstPeriodStart);
        Ok([first] + GenerateFrom(first, today + PeriodStep))
      else Ok(GenerateFrom(Latest(periods), today + PeriodStep))
  }

  class PayPeriodTable {
    var rows: seq<PeriodRow>

    constructor(rows: seq<PeriodRow>)
      ensures this.rows == rows
    {
      this.rows := rows;
    }

    /** `populate_pay_periods`. */
    method Populate(today: int) returns (r: Result<()>)
      modifies this
      ensures NewPeriods(old(rows), today).Err? ==> r == Err(NewPeriods(old(rows), today).error) && rows == old(rows)
      ensures NewPeriods(old(rows), today).Ok? ==> r == Ok(()) && rows == old(rows) + NewPeriods(old(rows), today).value
    {
      var plusOne := today + PeriodStep;
      var found := BothFound(rows, today);
      if found.Err? {
        return Err(found.error);
      }
      if found.value {
        AppendNil(rows);
        return Ok(());
      }
      ghost var expected := NewPeriods(rows, today).value;
      var last: PeriodRow;
      if |rows| == 0 {
        last := Created(FirstPeriodStart);
        rows := rows + [last];
      } else {
        last := Latest(rows);
      }
      assert rows + GenerateFrom(last, plusOne) == old(rows) + expected;
      while last.start < plusOne && last.end < plusOne
        invariant rows + GenerateFrom(last, plusOne) == old(rows) + expected
        decreases plusOne - last.start
      {
        var nextStart := last.start + PeriodStep;
        ghost var before := rows;
        last := Created(nextStart);
        rows := rows + [last];
        AppendAssoc(before, [last], GenerateFrom(last, plusOne));
      }
      AppendNil(rows);
      r := Ok(());
    }
  }

  /** An empty table starts with the period of 2015-05-25. */
  lemma FirstPeriodWhenEmpty(today: int)
    ensures NewPeriods([], today).Ok?
    ensures NewPeriods([], today).value[0] == PeriodRow(FirstPeriodStart, FirstPeriodStart + 13)
  {
  }

  /** When the periods of today and of today + 14 each exist once, nothing is created. */
  lemma NothingCreatedWhenBothCovered(periods: seq<PeriodRow>, today: int, i: nat, j: nat)
    requires i < |periods| && Covers(periods[i], today)
    requires forall k :: 0 <= k < |periods| && k != i ==> !Covers(periods[k], today)
    requires j < |periods| && Covers(periods[j], today + PeriodStep)
    requires forall k :: 0 <= k < |periods| && k != j ==> !Covers(periods[k], today + PeriodStep)
    ensures NewPeriods(periods, today) == Ok([])
  {
    Queries.GetUnique(periods, (p: PeriodRow) => Covers(p, today), i);
    Queries.GetUnique(periods, (p: PeriodRow) => Covers(p, today + PeriodStep), j);
  }

  /** Generated periods are consecutive 14-day blocks: each starts the day after the previous ends. */
  lemma {:induction false} GeneratedAreConsecutive(last: PeriodRow, target: int)
    ensures var g := GenerateFrom(last, target);
            (|g| > 0 ==> g[0].start == last.start + PeriodStep)
            && (forall i :: 0 <= i < |g| ==> g[i].end == g[i].start + 13)
            && (forall i :: 0 < i < |g| ==> g[i].start == g[i - 1].start + PeriodStep)
    decreases target - last.start
  {
    if last.start < target && last.end < target {
      var next := Created(last.start + PeriodStep);
      GeneratedAreConsecutive(next, target);
      var g := GenerateFrom(last, target);
      assert g == [next] + GenerateFrom(next, target);
    }
  }

  /**
   * Generation stops at the first period that reaches the target, and, from a
   * well-formed last period that ends before the target, that period covers it.
   */
  lemma {:induction false} GeneratedCoversTarget(last: PeriodRow, target: int)
    requires last.end == last.start + 13
    ensures var g := GenerateFrom(last, target);
            (|g| == 0 <==> last.start >= target || last.end >= target)
            && (|g| > 0 ==> Covers(g[|g| - 1], target))
            && (forall i :: 0 <= i < |g| - 1 ==> g[i].end < target)
    decreases target - last.start
  {
    if last.start < target && last.end < target {
      var next := Created(last.start + PeriodStep);
      GeneratedCoversTarget(next, target);
      var g := GenerateFrom(last, target);
      assert g == [next] + GenerateFrom(next, target);
    }
  }

  // ---------------------------------------------------------------------
  // renaming_for_uniqueness
  // ---------------------------------------------------------------------

  /** The six field names a fresh `TimeSheetDayForm` has. */
  const BaseNames: seq<string> :=
    ["morning_begin", "morning_end", "afternoon_begin", "afternoon_end", "evening_begin", "evening_end"]

  function Suffixed(name: string, id: nat): string {
    name + "_" + Decimal(id)
  }

  /**
   * Moving the fields `names` one by one to their suffixed names; a missing
   * field stops with the KeyError `del`/lookup raises, keeping the moves done so far.
   */
  function RenameAll<V>(fields: map<string, V>, names: seq<string>, id: nat): (map<string, V>, Result<()>)
    decreases |names|
  {
    if names == [] then (fields, Ok(()))
    else if names[0] !in fields then (fields, Err(KeyError(names[0])))
    else RenameAll(fields[Suffixed(names[0], id) := fields[names[0]]] - {names[0]}, names[1..], id)
  }

  class DayFormFields {
    var fields: map<string, seq<TimesheetForms.Choice>>

    constructor(fields: map<string, seq<TimesheetForms.Choice>>)
      ensures this.fields == fields
    {
      this.fields := fields;
    }

    /** One field's move: `fields[name_<id>] = fields[name]; del fields[name]`. */
    method Rename(name: string, id: nat) returns (r: Result<()>)
      modifies this
      ensures name !in old(fields) ==> r == Err(KeyError(name)) && fields == old(fields)
      ensures name in old(fields) ==>
                r == Ok(()) && fields == old(fields)[Suffixed(name, id) := old(fields)[name]] - {name}
    {
      if name !in fields {
        return Err(KeyError(name));
      }
      fields := fields[Suffixed(name, id) := fields[name]];
      fields := fields - {name};
      r := Ok(());
    }

    /** `renaming_for_uniqueness`: the six fields get the suffix `_<id>`. */
    method RenameForUniqueness(id: nat) returns (r: Result<()>)
      modifies this
      ensures (fields, r) == RenameAll(old(fields), BaseNames, id)
    {
      var i := 0;
      while i < |BaseNames|
        invariant 0 <= i <= |BaseNames|
        invariant RenameAll(fields, BaseNames[i..], id) == RenameAll(old(fields), BaseNames, id)
      {
        assert BaseNames[i..][1..] == BaseNames[i + 1..];
        r := Rename(BaseNames[i], id);
        if r.Err? {
          return;
        }
        i := i + 1;
      }
      r := Ok(());
    }
  }

  /** A suffixed name ends in a digit and no base name does, so renaming never overwrites a field still to be moved. */
  lemma SuffixedIsNew(name: string, id: nat, other: string)
    requires other in BaseNames
    ensures Suffixed(name, id) != other
  {
    var d := Decimal(id);
    assert Suffixed(name, id)[|Suffixed(name, id)| - 1] == d[|d| - 1];
  }

  /** Different fields get different suffixed names. */
  lemma SuffixedInjective(name: string, other: string, id: nat)
    requires Suffixed(name, id) == Suffixed(other, id)
    ensures name == other
  {
    var d := Decimal(id);
    assert |name| == |other|;
    assert Suffixed(name, id)[..|name|] == name;
    assert Suffixed(other, id)[..|other|] == other;
  }

  /**
   * With the six fields present, each field moves to its suffixed name with
   * its value, and every field that is neither moved nor overwritten stays.
   */
  lemma {:induction false} RenameMovesFields<V>(fields: map<string, V>, names: seq<string>, id: nat, key: string)
    requires forall n :: n in names ==> n in fields && n in BaseNames
    requires forall i, j :: 0 <= i < j < |names| ==> names[i] != names[j]
    ensures RenameAll(fields, names, id).1 == Ok(())
    ensures key in names ==> key !in RenameAll(fields, names, id).0
    ensures key in names ==> Suffixed(key, id) in RenameAll(fields, names, id).0
                             && RenameAll(fields, names, id).0[Suffixed(key, id)] == fields[key]
    ensures key !in names && (forall n :: n in names ==> key != Suffixed(n, id)) ==>
              (key in RenameAll(fields, names, id).0 <==> key in fields)
              && (key in fields ==> key in RenameAll(fields, names, id).0 && RenameAll(fields, names, id).0[key] == fields[key])
    decreases |names|
  {
    if names != [] {
      var n := names[0];
      var next := fields[Suffixed(n, id) := fields[n]] - {n};
      assert RenameAll(fields, names, id) == RenameAll(next, names[1..], id);
      forall m | m in names[1..] ensures m in next && m in BaseNames {
        assert m != n;
        SuffixedIsNew(n, id, m);
      }
      assert forall i, j :: 0 <= i < j < |names[1..]| ==> names[1..][i] != names[1..][j] by {
        forall i, j | 0 <= i < j < |names[1..]| ensures names[1..][i] != names[1..][j] {
          assert names[1..][i] == names[i + 1] && names[1..][j] == names[j + 1];
        }
      }
      RenameMovesFields(next, names[1..], id, key);
      if key == n {
        assert key !in names[1..];
        forall m | m in names[1..] ensures Suffixed(n, id) != Suffixed(m, id) && Suffixed(n, id) != m && n != Suffixed(m, id) {
          assert m != n;
          if Suffixed(n, id) == Suffixed(m, id) {
            SuffixedInjective(n, m, id);
          }
          SuffixedIsNew(n, id, m);
          SuffixedIsNew(m, id, n);
        }
        RenameMovesFields(next, names[1..], id, Suffixed(n, id));
      } else if key in names {
        SuffixedIsNew(n, id, key);
      }
    }
  }

  // ---------------------------------------------------------------------
  // edit_timesheets: the validation pass over the bound day forms
  // ---------------------------------------------------------------------

  /** One begin/end pair of a bound form: whether the begin field has an error, and the posted codes. */
  datatype PairData = PairData(hasError: bool, begin: int, end: int)

  /** A bound day form: its three pairs and `is_valid()`. */
  datatype BoundForm = BoundForm(morning: PairData, afternoon: PairData, evening: PairData, isValid: bool)

  /**
   * The flags kept across the loop: `shifts_exist` and the three
   * `*_validation` flags, all set before the loop and never reset.
   */
  datatype Sticky = Sticky(shiftsExist: bool, morning: bool, afternoon: bool, evening: bool)

  /** A pair without an error whose both codes are set. */
  predicate Filled(p: PairData) {
    !p.hasError && p.begin != IntNullTime && p.end != IntNullTime
  }

  /** A filled pair that does not end after it begins turns its flag off. */
  predicate Misordered(p: PairData) {
    Filled(p) && !(p.begin < p.end)
  }

  function PairFlag(flag: bool, p: PairData): bool {
    if Misordered(p) then false else flag
  }

  function FormStep(s: Sticky, f: BoundForm): (r: Sticky)
    ensures r.shiftsExist <==> s.shiftsExist || Filled(f.morning) || Filled(f.afternoon) || Filled(f.evening)
    ensures r.morning <==> s.morning && !Misordered(f.morning)
    ensures r.afternoon <==> s.afternoon && !Misordered(f.afternoon)
    ensures r.evening <==> s.evening && !Misordered(f.evening)
  {
    Sticky(s.shiftsExist || Filled(f.morning) || Filled(f.afternoon) || Filled(f.evening),
           PairFlag(s.morning, f.morning), PairFlag(s.afternoon, f.afternoon), PairFlag(s.evening, f.evening))
  }

  const InitialSticky := Sticky(false, true, true, true)

  /** The flags after the first `n` forms. */
  function StickyAfter(forms: seq<BoundForm>, n: nat): Sticky
    requires n <= |forms|
  {
    if n == 0 then InitialSticky else FormStep(StickyAfter(forms, n - 1), forms[n - 1])
  }

  /** Whether a form's fields end up disabled: the condition that also sets `all_fields_valid`. */
  predicate Locks(s: Sticky, f: BoundForm, isAdmin: bool) {
    !isAdmin && s.morning && s.afternoon && s.evening && s.shiftsExist && f.isValid
  }

  function LockedFlags(forms: seq<BoundForm>, n: nat, isAdmin: bool): (r: seq<bool>)
    requires n <= |forms|
    ensures |r| == n
  {
    if n == 0 then [] else LockedFlags(forms, n - 1, isAdmin) + [Locks(StickyAfter(forms, n), forms[n - 1], isAdmin)]
  }

  /** The `submit` flag: hidden only when the last form locked and there are shifts or the user is an admin. */
  predicate SubmitShown(forms: seq<BoundForm>, isAdmin: bool, hasShifts: bool) {
    !(|forms| > 0 && Locks(StickyAfter(forms, |forms|), forms[|forms| - 1], isAdmin) && (hasShifts || isAdmin))
  }

  /** The validation loop of `edit_timesheets`, and the `submit` flag computed after it. */
  method ValidateForms(forms: seq<BoundForm>, isAdmin: bool, hasShifts: bool) returns (locked: seq<bool>, submit: bool)
    ensures locked == LockedFlags(forms, |forms|, isAdmin)
    ensures submit == SubmitShown(forms, isAdmin, hasShifts)
  {
    var shiftsExist := false;
    var morningValidation := true;
    var afternoonValidation := true;
    var eveningValidation := true;
    var allFieldsValid := false;
    locked := [];
    var i := 0;
    while i < |forms|
      invariant 0 <= i <= |forms|
      invariant Sticky(shiftsExist, morningValidation, afternoonValidation, eveningValidation) == StickyAfter(forms, i)
      invariant locked == LockedFlags(forms, i, isAdmin)
      invariant allFieldsValid == (i > 0 && locked[i - 1])
    {
      var f := forms[i];
      allFieldsValid := false;
      if !f.morning.hasError && f.morning.begin != IntNullTime && f.morning.end != IntNullTime {
        shiftsExist := true;
        if !(f.morning.begin < f.morning.end) {
          morningValidation := false;
        }
      }
      if !f.afternoon.hasError && f.afternoon.begin != IntNullTime && f.afternoon.end != IntNullTime {
        shiftsExist := true;
        if !(f.afternoon.begin < f.afternoon.end) {
          afternoonValidation := false;
        }
      }
      if !f.evening.hasError && f.evening.begin != IntNullTime && f.evening.end != IntNullTime {
        shiftsExist := true;
        if !(f.evening.begin < f.evening.end) {
          eveningValidation := false;
        }
      }
      if !isAdmin {
        if morningValidation && afternoonValidation && eveningValidation && shiftsExist && f.isValid {
          allFieldsValid := true;
        }
      }
      locked := locked + [allFieldsValid];
      i := i + 1;
    }
    submit := true;
    if allFieldsValid {
      if hasShifts || isAdmin {
        submit := false;
      }
    }
  }

  /** An admin's forms never lock, so an admin always gets the submit button. */
  lemma AdminAlwaysSubmits(forms: seq<BoundForm>, hasShifts: bool)
    ensures SubmitShown(forms, true, hasShifts)
    ensures forall i :: 0 <= i < |forms| ==> !LockedFlags(forms, |forms|, true)[i]
  {
    AdminNeverLocks(forms, |forms|);
  }

  lemma {:induction false} AdminNeverLocks(forms: seq<BoundForm>, n: nat)
    requires n <= |forms|
    ensures forall i :: 0 <= i < n ==> !LockedFlags(forms, n, true)[i]
  {
    if n > 0 {
      AdminNeverLocks(forms, n - 1);
    }
  }

  /** A misordered pair turns its flag off for good: no later form locks. */
  lemma {:induction false} MisorderedBlocksLaterLocks(forms: seq<BoundForm>, j: nat, n: nat)
    requires j < n <= |forms|
    requires Misordered(forms[j].morning) || Misordered(forms[j].afternoon) || Misordered(forms[j].evening)
    ensures !(StickyAfter(forms, n).morning && StickyAfter(forms, n).afternoon && StickyAfter(forms, n).evening)
    decreases n
  {
    if n > j + 1 {
      MisorderedBlocksLaterLocks(forms, j, n - 1);
    }
  }

  /** Submit is hidden exactly when the last form locked and shifts exist (for a non-admin). */
  lemma SubmitHiddenIff(forms: seq<BoundForm>, hasShifts: bool)
    requires |forms| > 0
    ensures !SubmitShown(forms, false, hasShifts) <==> LockedFlags(forms, |forms|, false)[|forms| - 1] && hasShifts
  {
  }
}
