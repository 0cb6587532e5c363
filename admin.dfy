/**
 * The site administration helpers: the year filters of the semester and
 * software-expiry lists, the department and related-model columns, the
 * degree checks and the user fieldset without individual permissions.
 */
module Admin {
  import opened Wrappers
  import opened Text

  // ---------------------------------------------------------------------
  // First-seen de-duplication
  // ---------------------------------------------------------------------

  /** The distinct values of `xs` in first-seen order, as a loop appending each unseen value builds them. */
  function Distinct<T(==)>(xs: seq<T>): seq<T> {
    if xs == [] then []
    else
      var d := Distinct(xs[..|xs| - 1]);
      if xs[|xs| - 1] in d then d else d + [xs[|xs| - 1]]
  }

  lemma DistinctSnoc<T>(xs: seq<T>, x: T)
    ensures Distinct(xs + [x]) == if x in Distinct(xs) then Distinct(xs) else Distinct(xs) + [x]
  {
    assert (xs + [x])[..|xs|] == xs;
  }

  /** Where `x` first occurs in `xs`. */
  function FirstIndex<T(==)>(xs: seq<T>, x: T): (i: nat)
    requires x in xs
    ensures i < |xs| && xs[i] == x
    ensures forall j :: 0 <= j < i ==> xs[j] != x
  {
    if xs[0] == x then 0 else 1 + FirstIndex(xs[1..], x)
  }

  lemma {:induction false} FirstIndexPrefix<T>(xs: seq<T>, n: nat, x: T)
    requires n <= |xs| && x in xs[..n]
    ensures FirstIndex(xs, x) == FirstIndex(xs[..n], x)
  {
    var i := FirstIndex(xs[..n], x);
    assert xs[i] == x;
  }

  /** Membership and distinctness from `DistinctIsFirstSeen`, without the order of first occurrences. */
  lemma DistinctKeepsMembers<T>(xs: seq<T>)
    ensures forall x :: x in Distinct(xs) <==> x in xs
    ensures forall i, j :: 0 <= i < j < |Distinct(xs)| ==> Distinct(xs)[i] != Distinct(xs)[j]
  {
    DistinctIsFirstSeen(xs);
  }

  /**
   * The de-duplicated list holds each value of `xs` exactly once and lists
   * them in the order of their first occurrence.
   */
  lemma {:induction false} DistinctIsFirstSeen<T>(xs: seq<T>)
    ensures forall x :: x in Distinct(xs) ==> x in xs
    ensures forall x :: x in xs ==> x in Distinct(xs)
    ensures forall i, j :: 0 <= i < j < |Distinct(xs)| ==> Distinct(xs)[i] != Distinct(xs)[j]
    ensures forall i, j :: 0 <= i < j < |Distinct(xs)| ==> FirstIndex(xs, Distinct(xs)[i]) < FirstIndex(xs, Distinct(xs)[j])
  {
    if xs != [] {
      var n := |xs| - 1;
      var init, last := xs[..n], xs[n];
      assert init + [last] == xs;
      DistinctIsFirstSeen(init);
      var d := Distinct(init);
      forall y | y in d
        ensures FirstIndex(xs, y) == FirstIndex(init, y)
      {
        assert y in init;
        FirstIndexPrefix(xs, n, y);
      }
      if last !in d {
        assert last !in init;
        assert FirstIndex(xs, last) == n;
      }
    }
  }

  // ---------------------------------------------------------------------
  // SemesterDateToYearListFilter
  // ---------------------------------------------------------------------

  /**
   * `SemesterDateToYearListFilter.lookups`: the start years of the
   * semesters, each offered once as the choice `(year, year)`, listed by the
   * year alone.
   */
  method SemesterYearLookups(startYears: seq<int>) returns (r: seq<int>)
    ensures r == Distinct(startYears)
  {
    r := [];
    for k := 0 to |startYears|
      invariant r == Distinct(startYears[..k])
    {
      assert startYears[..k + 1] == startYears[..k] + [startYears[k]];
      DistinctSnoc(startYears[..k], startYears[k]);
      if startYears[k] !in r {
        r := r + [startYears[k]];
      }
    }
    assert startYears[..|startYears|] == startYears;
  }

  /** `SemesterDateToYearListFilter.queryset`: the start year filtered on, or none for an empty parameter. */
  function SemesterYearQueryset(yearParam: Option<string>): (q: Option<string>)
    ensures q.None? <==> yearParam.None? || yearParam.value == ""
    ensures q.Some? ==> q == yearParam
  {
    var year := if yearParam.Some? then yearParam.value else "";
    if year != "" then Some(year) else None
  }

  /** The semesters a query keeps: all of them when it does not filter. */
  predicate SemesterSelected(q: Option<string>, startYear: nat) {
    q.None? || Decimal(startYear) == q.value
  }

  /** Choosing a listed year keeps at least the semesters that start in it. */
  lemma SemesterChoiceSelects(startYears: seq<nat>, i: nat)
    requires i < |startYears|
    ensures startYears[i] in Distinct(startYears)
    ensures SemesterSelected(SemesterYearQueryset(Some(Decimal(startYears[i]))), startYears[i])
  {
    DistinctIsFirstSeen(startYears);
  }

  // ---------------------------------------------------------------------
  // SoftwareExpiryToYearListFilter
  // ---------------------------------------------------------------------

  /** An expiration-year choice: `('None', 'None')` or `(year, year)`. */
  datatype ExpiryChoice = NoExpiry | ExpiryYear(year: int)

  /** The years of the expirations that are set, in order. */
  function ExpiryYears(expirations: seq<Option<int>>): (r: seq<ExpiryChoice>)
    ensures NoExpiry !in r
    ensures forall y :: ExpiryYear(y) in r <==> Some(y) in expirations
  {
    if expirations == [] then []
    else
      var n := |expirations| - 1;
      var init := ExpiryYears(expirations[..n]);
      assert expirations == expirations[..n] + [expirations[n]];
      match expirations[n]
      case Some(y) => init + [ExpiryYear(y)]
      case None => init
  }

  /** The expected lookups: the no-expiry choice first when some expiration is unset, then the distinct years. */
  function ExpiryLookups(expirations: seq<Option<int>>): seq<ExpiryChoice> {
    (if None in expirations then [NoExpiry] else []) + Distinct(ExpiryYears(expirations))
  }

  lemma ExpiryYearStep(seen: seq<Option<int>>, y: int)
    ensures ExpiryLookups(seen + [Some(y)])
            == if ExpiryYear(y) in ExpiryLookups(seen) then ExpiryLookups(seen) else ExpiryLookups(seen) + [ExpiryYear(y)]
  {
    var s := seen + [Some(y)];
    var x := ExpiryYear(y);
    assert s[..|seen|] == seen;
    assert ExpiryYears(s) == ExpiryYears(seen) + [x];
    assert None in s <==> None in seen;
    var h: seq<ExpiryChoice> := if None in seen then [NoExpiry] else [];
    HeadThenDistinctSnoc(h, ExpiryYears(seen), x);
  }

  /** Adding a year behind the optional head adds it to the de-duplicated years unless it is already there. */
  lemma HeadThenDistinctSnoc(h: seq<ExpiryChoice>, ys: seq<ExpiryChoice>, x: ExpiryChoice)
    requires h == [] || h == [NoExpiry]
    requires x != NoExpiry
    ensures h + Distinct(ys + [x]) == if x in h + Distinct(ys) then h + Distinct(ys) else h + Distinct(ys) + [x]
  {
    var d := Distinct(ys);
    DistinctSnoc(ys, x);
    assert x in h + d <==> x in d;
    if x !in d {
      assert h + (d + [x]) == (h + d) + [x];
    }
  }

  lemma NoExpiryStep(seen: seq<Option<int>>)
    ensures ExpiryLookups(seen + [None])
            == if NoExpiry in ExpiryLookups(seen) then ExpiryLookups(seen) else [NoExpiry] + ExpiryLookups(seen)
  {
    var s := seen + [None];
    assert s[..|seen|] == seen;
    assert ExpiryYears(s) == ExpiryYears(seen);
    var d := Distinct(ExpiryYears(seen));
    DistinctKeepsMembers(ExpiryYears(seen));
    assert NoExpiry !in d;
    assert None in s;
  }

  /** `SoftwareExpiryToYearListFilter.lookups`. */
  method SoftwareExpiryLookups(expirations: seq<Option<int>>) returns (r: seq<ExpiryChoice>)
    ensures r == ExpiryLookups(expirations)
  {
    r := [];
    for k := 0 to |expirations|
      invariant r == ExpiryLookups(expirations[..k])
    {
      assert expirations[..k + 1] == expirations[..k] + [expirations[k]];
      match expirations[k] {
        case Some(y) =>
          ExpiryYearStep(expirations[..k], y);
          if ExpiryYear(y) !in r {
            r := r + [ExpiryYear(y)];
          }
        case None =>
          NoExpiryStep(expirations[..k]);
          if NoExpiry !in r {
            r := [NoExpiry] + r;
          }
      }
    }
    assert expirations[..|expirations|] == expirations;
  }

  /** Each choice is listed once, `('None', 'None')` only at the head, and exactly for what the expirations hold. */
  lemma ExpiryLookupsChoices(expirations: seq<Option<int>>)
    ensures NoExpiry in ExpiryLookups(expirations) <==> None in expirations
    ensures forall y :: ExpiryYear(y) in ExpiryLookups(expirations) <==> Some(y) in expirations
    ensures forall i :: 0 < i < |ExpiryLookups(expirations)| ==> ExpiryLookups(expirations)[i] != NoExpiry
    ensures forall i, j :: 0 <= i < j < |ExpiryLookups(expirations)| ==> ExpiryLookups(expirations)[i] != ExpiryLookups(expirations)[j]
  {
    var ys := ExpiryYears(expirations);
    var d := Distinct(ys);
    DistinctKeepsMembers(ys);
    var h: seq<ExpiryChoice> := if None in expirations then [NoExpiry] else [];
    assert ExpiryLookups(expirations) == h + d;
    assert NoExpiry !in d;
    HeadThenDistinct(h, d);
  }

  /** `('None', 'None')` at most once at the head, then distinct years: the whole list is distinct and the head is the only None. */
  lemma HeadThenDistinct(h: seq<ExpiryChoice>, d: seq<ExpiryChoice>)
    requires h == [] || h == [NoExpiry]
    requires NoExpiry !in d
    requires forall i, j :: 0 <= i < j < |d| ==> d[i] != d[j]
    ensures forall i :: 0 < i < |h + d| ==> (h + d)[i] != NoExpiry
    ensures forall i, j :: 0 <= i < j < |h + d| ==> (h + d)[i] != (h + d)[j]
  {
    var r := h + d;
    forall i | 0 < i < |r|
      ensures r[i] != NoExpiry
    {
      assert r[i] == d[i - |h|];
    }
    forall i, j | 0 <= i < j < |r|
      ensures r[i] != r[j]
    {
      assert r[j] == d[j - |h|];
      if i >= |h| {
        assert r[i] == d[i - |h|];
      }
    }
  }

  /** What the expiry filter asks the database for. */
  datatype ExpiryQuery = AllExpiries | NullExpiry | ExpiresIn(yearText: string)

  /** `SoftwareExpiryToYearListFilter.queryset`: '' filters nothing, 'None' the unset expirations, anything else the year. */
  function SoftwareExpiryQueryset(yearParam: Option<string>): (q: ExpiryQuery)
    ensures q.AllExpiries? <==> yearParam.None? || yearParam.value == ""
    ensures q.NullExpiry? <==> yearParam == Some("None")
    ensures q.ExpiresIn? ==> q.yearText == yearParam.value
  {
    var year := if yearParam.Some? then yearParam.value else "";
    if year == "" then AllExpiries
    else if year == "None" then NullExpiry
    else ExpiresIn(year)
  }

  /** The parameter a choice puts into the address. */
  function ChoiceParam(c: ExpiryChoice): string
    requires c.ExpiryYear? ==> c.year >= 0
  {
    match c
    case NoExpiry => "None"
    case ExpiryYear(y) => Decimal(y)
  }

  predicate ExpirySelected(q: ExpiryQuery, expiration: Option<int>) {
    match q
    case AllExpiries => true
    case NullExpiry => expiration.None?
    case ExpiresIn(t) => expiration.Some? && expiration.value >= 0 && Decimal(expiration.value) == t
  }

  /** Every listed choice, once chosen, keeps the software details it was listed for. */
  lemma ExpiryChoiceSelects(expirations: seq<Option<int>>, i: nat)
    requires i < |expirations|
    requires expirations[i].Some? ==> expirations[i].value >= 0
    ensures var c := if expirations[i].Some? then ExpiryYear(expirations[i].value) else NoExpiry;
            c in ExpiryLookups(expirations) && ExpirySelected(SoftwareExpiryQueryset(Some(ChoiceParam(c))), expirations[i])
  {
    ExpiryLookupsChoices(expirations);
    if expirations[i].Some? {
      var t := Decimal(expirations[i].value);
      assert t[0] != 'N';
      assert t != "None";
    }
  }

  // ---------------------------------------------------------------------
  // List columns
  // ---------------------------------------------------------------------

  /** Python's `s[:-n]`: everything but the last `n` characters, or nothing when shorter. */
  function DropLast(s: string, n: nat): string {
    if n <= |s| then s[..|s| - n] else []
  }

  /** `CourseAdmin.get_departments`: every name followed by ' | ', then the last three characters cut off. */
  method GetDepartments(names: seq<string>) returns (r: string)
    ensures r == Join(names, " | ")
  {
    var departments := "";
    for k := 0 to |names|
      invariant departments == Interleaved(names[..k], " | ")
    {
      InterleavedSnoc(names, k, " | ");
      departments := departments + names[k] + " | ";
    }
    assert names[..|names|] == names;
    r := DropLast(departments, 3);
    if names != [] {
      InterleavedIsJoin(names, " | ");
      assert departments[..|departments| - 3] == Join(names, " | ");
    }
  }

  /** The separator `related_models` puts between two links. */
  const RelatedSeparator := "&nbsp; &nbsp; | &nbsp; &nbsp;"

  /** An admin change page: its address and the model name shown. */
  datatype AdminLink = AdminLink(url: string, title: string)

  function Anchor(link: AdminLink): (a: string)
    ensures StartsWith(a, "<a href=\"") && EndsWith(a, "</a>")
  {
    "<a href=\"" + link.url + "\">" + link.title + "</a>"
  }

  /** The anchors of the related objects that exist, in order. */
  function PresentAnchors(links: seq<Option<AdminLink>>): (r: seq<string>)
    ensures forall i :: 0 <= i < |r| ==> StartsWith(r[i], "<a href=\"") && EndsWith(r[i], "</a>")
  {
    if links == [] then []
    else
      var init := PresentAnchors(links[..|links| - 1]);
      match links[|links| - 1]
      case Some(l) => init + [Anchor(l)]
      case None => init
  }

  lemma JoinNonEmpty(parts: seq<string>, sep: string)
    requires parts != [] && parts[0] != []
    ensures Join(parts, sep) != []
  {
  }

  /**
   * `related_models`: each related object that exists adds its link, after
   * the separator when the text built so far is not empty.
   */
  method RelatedModels(links: seq<Option<AdminLink>>) returns (r: string)
    ensures r == Join(PresentAnchors(links), RelatedSeparator)
  {
    r := "";
    for k := 0 to |links|
      invariant r == Join(PresentAnchors(links[..k]), RelatedSeparator)
    {
      var seen := PresentAnchors(links[..k]);
      assert links[..k + 1][..k] == links[..k];
      if links[k].Some? {
        var a := Anchor(links[k].value);
        if seen != [] {
          JoinNonEmpty(seen, RelatedSeparator);
          JoinSnoc(seen, a, RelatedSeparator);
        }
        if r != "" {
          r := r + RelatedSeparator;
        }
        r := r + a;
      }
    }
    assert links[..|links|] == links;
  }

  lemma {:induction false} JoinEnds(parts: seq<string>, sep: string)
    requires parts != []
    ensures StartsWith(Join(parts, sep), parts[0])
    ensures EndsWith(Join(parts, sep), parts[|parts| - 1])
  {
    if |parts| > 1 {
      JoinEnds(parts[1..], sep);
      var rest := Join(parts[1..], sep);
      assert Join(parts, sep) == parts[0] + (sep + rest);
      var last := parts[|parts| - 1];
      assert rest[|rest| - |last|..] == last;
      assert (parts[0] + (sep + rest))[|parts[0] + (sep + rest)| - |last|..] == rest[|rest| - |last|..];
    }
  }

  /** A text that begins with an anchor and ends with an anchor opens and closes like one. */
  lemma AnchorFrame(r: string, first: string, last: string)
    requires StartsWith(r, first) && EndsWith(r, last)
    requires StartsWith(first, "<a href=\"") && EndsWith(last, "</a>")
    ensures StartsWith(r, "<a href=\"") && EndsWith(r, "</a>")
  {
    assert r[..9] == first[..9];
    assert r[|r| - 4..] == last[|last| - 4..];
  }

  /** A non-empty join of anchors opens like its first anchor and closes like its last. */
  lemma JoinedAnchorsFrame(parts: seq<string>)
    requires parts != []
    requires forall i :: 0 <= i < |parts| ==> StartsWith(parts[i], "<a href=\"") && EndsWith(parts[i], "</a>")
    ensures StartsWith(Join(parts, RelatedSeparator), "<a href=\"") && EndsWith(Join(parts, RelatedSeparator), "</a>")
  {
    JoinEnds(parts, RelatedSeparator);
    AnchorFrame(Join(parts, RelatedSeparator), parts[0], parts[|parts| - 1]);
  }

  /** Whatever else is missing, the UserIntermediary link is always among the anchors. */
  lemma IntermediaryPresent(wmuUser: Option<AdminLink>, intermediary: AdminLink, profile: Option<AdminLink>)
    ensures Anchor(intermediary) in PresentAnchors([wmuUser, Some(intermediary), profile])
  {
    var links := [wmuUser, Some(intermediary), profile];
    assert links[..2] == [wmuUser, Some(intermediary)];
    assert links[..2][..1] == [wmuUser];
    assert PresentAnchors(links[..2]) == PresentAnchors([wmuUser]) + [Anchor(intermediary)];
  }

  /** `UserAdmin.related_models`: the WmuUser link if any, the UserIntermediary link, the Profile link if any. */
  method UserRelatedModels(wmuUser: Option<AdminLink>, intermediary: AdminLink, profile: Option<AdminLink>) returns (r: string)
    ensures r == Join(PresentAnchors([wmuUser, Some(intermediary), profile]), RelatedSeparator)
    ensures StartsWith(r, "<a href=\"") && EndsWith(r, "</a>")
  {
    r := RelatedModels([wmuUser, Some(intermediary), profile]);
    IntermediaryPresent(wmuUser, intermediary, profile);
    JoinedAnchorsFrame(PresentAnchors([wmuUser, Some(intermediary), profile]));
  }

  // ---------------------------------------------------------------------
  // StudentHistoryAdmin, UserAdmin fieldsets
  // ---------------------------------------------------------------------

  /** `check_has_bachelors` and `check_has_masters`: a degree is recorded unless its GPA is zero. */
  function HasDegree(gpa: real): (b: bool)
    ensures b <==> gpa != 0.0
  {
    if gpa == 0.0 then false else true
  }

  /** `xs` without any `x`, in the original order. */
  function Without<T(==)>(xs: seq<T>, x: T): seq<T> {
    if xs == [] then []
    else
      var init := Without(xs[..|xs| - 1], x);
      if xs[|xs| - 1] != x then init + [xs[|xs| - 1]] else init
  }

  /** Removing a value takes out every copy of it and keeps every other value, as often as it occurred. */
  lemma {:induction false} WithoutCounts<T>(xs: seq<T>, x: T)
    ensures multiset(Without(xs, x))[x] == 0
    ensures forall y :: y != x ==> multiset(Without(xs, x))[y] == multiset(xs)[y]
    ensures x !in xs ==> Without(xs, x) == xs
  {
    if xs != [] {
      var n := |xs| - 1;
      WithoutCounts(xs[..n], x);
      assert xs == xs[..n] + [xs[n]];
    }
  }

  /** The name of the individual-permissions field. */
  const UserPermissionsField := "user_permissions"

  /** The class-body loop that rebuilds the third fieldset's fields without 'user_permissions'. */
  method RemoveUserPermissions(fields: seq<string>) returns (r: seq<string>)
    ensures r == Without(fields, UserPermissionsField)
  {
    r := [];
    for k := 0 to |fields|
      invariant r == Without(fields[..k], UserPermissionsField)
    {
      assert fields[..k + 1][..k] == fields[..k];
      if fields[k] != UserPermissionsField {
        r := r + [fields[k]];
      }
    }
    assert fields[..|fields|] == fields;
  }
}
