/**
 * `CodeField`: a character field whose value is stored without any whitespace
 * and in upper case. The normalisation runs in `pre_save`, just before the
 * model instance is written.
 */
module CodeFields {
  import opened Wrappers
  import opened Text

  /** `re.sub(r'\s+', '', value)`: every whitespace character removed. */
  function RemoveSpace(s: string): (r: string)
    ensures |r| <= |s|
    ensures forall i :: 0 <= i < |r| ==> !IsRegexSpace(r[i]) && r[i] in s
    ensures (forall i :: 0 <= i < |s| ==> !IsRegexSpace(s[i])) ==> r == s
  {
    if s == [] then []
    else (if IsRegexSpace(s[0]) then [] else [s[0]]) + RemoveSpace(s[1..])
  }

  /** The stored spelling of a code: whitespace removed, then upper-cased. */
  function NormalizeCode(s: string): (r: string)
    ensures |r| <= |s|
    ensures forall i :: 0 <= i < |r| ==> !IsRegexSpace(r[i]) && !('a' <= r[i] <= 'z')
  {
    Upper(RemoveSpace(s))
  }

  lemma {:induction false} UpperIdempotent(s: string)
    ensures Upper(Upper(s)) == Upper(s)
  {
    assert forall i :: 0 <= i < |s| ==> UpperChar(UpperChar(s[i])) == UpperChar(s[i]);
  }

  /** Normalising a stored code again changes nothing. */
  lemma NormalizeIdempotent(s: string)
    ensures NormalizeCode(NormalizeCode(s)) == NormalizeCode(s)
  {
    var t := NormalizeCode(s);
    assert RemoveSpace(t) == t;
    UpperIdempotent(RemoveSpace(s));
  }

  /** Codes differing only in case and whitespace are stored alike. */
  lemma NormalizeIgnoresCaseAndSpace(s: string)
    ensures NormalizeCode(Lower(s)) == NormalizeCode(s)
    ensures NormalizeCode(s + " ") == NormalizeCode(s)
  {
    LowerRemoveSpace(s);
    UpperOfLower(RemoveSpace(s));
    RemoveSpaceAppend(s, " ");
    assert RemoveSpace(" ") == [];
    assert RemoveSpace(s) + [] == RemoveSpace(s);
  }

  lemma {:induction false} LowerRemoveSpace(s: string)
    ensures RemoveSpace(Lower(s)) == Lower(RemoveSpace(s))
  {
    if s != [] {
      var c := s[0];
      var head := if IsRegexSpace(c) then [] else [c];
      assert IsRegexSpace(LowerChar(c)) <==> IsRegexSpace(c);
      assert Lower(head) == (if IsRegexSpace(LowerChar(c)) then [] else [LowerChar(c)]);
      assert Lower(s)[0] == LowerChar(c) && Lower(s)[1..] == Lower(s[1..]);
      assert RemoveSpace(Lower(s)) == Lower(head) + RemoveSpace(Lower(s[1..]));
      LowerRemoveSpace(s[1..]);
      assert Lower(head + RemoveSpace(s[1..])) == Lower(head) + Lower(RemoveSpace(s[1..]));
    }
  }

  lemma UpperOfLower(s: string)
    ensures Upper(Lower(s)) == Upper(s)
  {
    assert forall i :: 0 <= i < |s| ==> UpperChar(LowerChar(s[i])) == UpperChar(s[i]);
  }

  lemma {:induction false} RemoveSpaceAppend(a: string, b: string)
    ensures RemoveSpace(a + b) == RemoveSpace(a) + RemoveSpace(b)
  {
    if a != [] {
      assert (a + b)[1..] == a[1..] + b;
      RemoveSpaceAppend(a[1..], b);
    } else {
      assert a + b == b;
    }
  }

  /** A model instance holding a code attribute (`None` when unset). */
  class CodedModel {
    var code: Option<string>

    constructor (code: Option<string>)
      ensures this.code == code
    {
      this.code := code;
    }
  }

  /**
   * `CodeField.pre_save`: a non-empty value is normalised, written back and
   * returned; an empty or missing one goes to the parent `pre_save`, which
   * returns the attribute as it is.
   */
  method PreSave(instance: CodedModel) returns (r: Option<string>)
    modifies instance
    ensures old(instance.code).None? || old(instance.code) == Some("") ==>
              r == old(instance.code) && instance.code == old(instance.code)
    ensures old(instance.code).Some? && old(instance.code) != Some("") ==>
              r == Some(NormalizeCode(old(instance.code).value)) && instance.code == r
  {
    var value := instance.code;
    if value.Some? && value.value != "" {
      var normalized := NormalizeCode(value.value);
      instance.code := Some(normalized);
      r := Some(normalized);
    } else {
      r := value;
    }
  }
}
