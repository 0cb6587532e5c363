/**
 * The advising directory backend: reading a major's program code, display
 * name, department and degree level from its directory entry, and keeping a
 * WmuUser's major relations in step with the majors the directory reports.
 */
module AdvBackend {
  import opened Wrappers
  import opened Text

  import opened LdapValues

  datatype DegreeLevel = Unknown | Associates | Bachelors | Masters | Phd

  /** `program_code.split('-')` with three parts: the middle part's prefix decides. */
  function KeyLevel(key: string): DegreeLevel {
    if Take(key, 3) == "PHD" then Phd
    else if Take(key, 2) == "MS" then Masters
    else if Take(key, 2) == "BS" then Bachelors
    else if Take(key, 2) == "AS" then Associates
    else Unknown
  }

  /** Python's `s[-2:]`. */
  function LastTwo(s: string): string {
    if |s| >= 2 then s[|s| - 2..] else s
  }

  /** Two parts: characters `[1:3]` of the first part (`[:3][-2:]`) decide. */
  function PrefixLevel(first: string): DegreeLevel {
    var t := LastTwo(Take(first, 3));
    if t == "MS" then Masters
    else if t == "BS" then Bachelors
    else if t == "AS" then Associates
    else Unknown
  }

  /** A dash-free four-character code: its last character decides. */
  function LastCharLevel(c: char): DegreeLevel {
    if c == 'P' then Associates
    else if c == 'J' then Bachelors
    else if c == 'M' || c == 'Q' then Masters
    else if c == 'D' then Phd
    else Unknown
  }

  /** `_get_degree_level_from_program_code`. */
  function DegreeLevelFromProgramCode(code: string): DegreeLevel {
    var parts := Split(code, '-');
    if |parts| == 3 then KeyLevel(parts[1])
    else if |parts| == 2 then PrefixLevel(parts[0])
    else if |parts| == 1 && |parts[0]| == 4 then LastCharLevel(parts[0][3])
    else Unknown
  }

  /** The preferred "campus-DEGREE-major" shape is decided by its middle part alone. */
  lemma ThreePartLevel(a: string, b: string, c: string)
    requires '-' !in a && '-' !in b && '-' !in c
    ensures DegreeLevelFromProgramCode(a + "-" + b + "-" + c) == KeyLevel(b)
  {
    ThreePartSplit(a, b, c);
  }

  lemma ThreePartSplit(a: string, b: string, c: string)
    requires '-' !in a && '-' !in b && '-' !in c
    ensures Split(a + "-" + b + "-" + c, '-') == [a, b, c]
  {
    SplitNoSep(c, '-');
    SplitAtSep(b, '-', c);
    assert a + "-" + b + "-" + c == a + ['-'] + (b + ['-'] + c);
    SplitAtSep(a, '-', b + ['-'] + c);
  }

  /** The "xDEGREE-major" shape is decided by characters 1 and 2 of its first part. */
  lemma TwoPartLevel(a: string, b: string)
    requires '-' !in a && '-' !in b
    ensures DegreeLevelFromProgramCode(a + "-" + b) == PrefixLevel(a)
  {
    SplitNoSep(b, '-');
    SplitAtSep(a, '-', b);
  }

  /** A dash-free code is decided by its last character when it has four, and is Unknown otherwise. */
  lemma OnePartLevel(a: string)
    requires '-' !in a
    ensures DegreeLevelFromProgramCode(a) == if |a| == 4 then LastCharLevel(a[3]) else Unknown
  {
    SplitNoSep(a, '-');
  }

  /** Four or more dash-separated parts are Unknown. */
  lemma ManyPartLevel(a: string, b: string, c: string, d: string)
    requires '-' !in a && '-' !in b && '-' !in c
    ensures DegreeLevelFromProgramCode(a + "-" + b + "-" + c + "-" + d) == Unknown
  {
    var rest := Split(d, '-');
    SplitAtSep(c, '-', d);
    assert b + ['-'] + (c + ['-'] + d) == b + "-" + c + "-" + d;
    SplitAtSep(b, '-', c + ['-'] + d);
    assert a + ['-'] + (b + "-" + c + "-" + d) == a + "-" + b + "-" + c + "-" + d;
    SplitAtSep(a, '-', b + "-" + c + "-" + d);
  }

  lemma MiddlePartLevels()
    ensures KeyLevel("BSE") == Bachelors && KeyLevel("MSE") == Masters && KeyLevel("PHD") == Phd
  {
    assert KeyLevel("BSE") == Bachelors by {
      assert Take("BSE", 3)[0] != "PHD"[0];
      assert Take("BSE", 2) == "BS";
      assert "BS"[0] != "MS"[0];
    }
    assert KeyLevel("MSE") == Masters by {
      assert Take("MSE", 3)[0] != "PHD"[0];
      assert Take("MSE", 2) == "MS";
    }
    assert KeyLevel("PHD") == Phd by {
      assert Take("PHD", 3) == "PHD";
    }
  }

  /** The program codes of the degree-level tests, one shape at a time. */
  lemma BachelorsThreePartExample()
    ensures DegreeLevelFromProgramCode("A-BSE-IENJ") == Bachelors
  {
    assert "A-BSE-IENJ" == "A" + "-" + "BSE" + "-" + "IENJ";
    ThreePartLevel("A", "BSE", "IENJ");
    MiddlePartLevels();
  }

  lemma MastersThreePartExample()
    ensures DegreeLevelFromProgramCode("A-MSE-IENM") == Masters
  {
    assert "A-MSE-IENM" == "A" + "-" + "MSE" + "-" + "IENM";
    ThreePartLevel("A", "MSE", "IENM");
    MiddlePartLevels();
  }

  lemma PhdThreePartExample()
    ensures DegreeLevelFromProgramCode("A-PHD-IEND") == Phd
  {
    assert "A-PHD-IEND" == "A" + "-" + "PHD" + "-" + "IEND";
    ThreePartLevel("A", "PHD", "IEND");
    MiddlePartLevels();
  }

  lemma BachelorsTwoPartExample()
    ensures DegreeLevelFromProgramCode("ABSEIND-IENJ") == Bachelors
  {
    assert PrefixLevel("ABSEIND") == Bachelors by {
      assert Take("ABSEIND", 3) == "ABS";
      assert LastTwo("ABS") == "BS";
      assert "BS"[0] != "MS"[0];
    }
    TwoPartLevel("ABSEIND", "IENJ");
    assert "ABSEIND" + "-" + "IENJ" == "ABSEIND-IENJ";
  }

  lemma MastersTwoPartExample()
    ensures DegreeLevelFromProgramCode("AMSEIND-IENM") == Masters
  {
    assert PrefixLevel("AMSEIND") == Masters by {
      assert Take("AMSEIND", 3) == "AMS";
      assert LastTwo("AMS") == "MS";
    }
    TwoPartLevel("AMSEIND", "IENM");
    assert "AMSEIND" + "-" + "IENM" == "AMSEIND-IENM";
  }

  /** The dash-free codes: P, J, M and D as the fourth character. */
  lemma OnePartExample(c: char)
    ensures DegreeLevelFromProgramCode(['I', 'E', 'N', c]) == LastCharLevel(c)
  {
    if c == '-' {
      TwoPartLevel("IEN", "");
      assert "IEN" + "-" + "" == ['I', 'E', 'N', c];
    } else {
      OnePartLevel(['I', 'E', 'N', c]);
    }
  }

  /** `str(entry[key][0]).strip()`: a missing key raises KeyError and an empty list IndexError. */
  function FirstValue(entry: LdapEntry, key: string): (r: Result<string>)
    ensures r.Ok? <==> key in entry && |entry[key]| > 0
    ensures r.Ok? ==> r.value == Strip(entry[key][0])
    ensures key !in entry ==> r == Err(KeyError(key))
  {
    if key !in entry then Err(KeyError(key))
    else if |entry[key]| == 0 then Err(IndexError)
    else Ok(Strip(entry[key][0]))
  }

  /**
   * `_get_major_display_name`: displayName, else title, else wmuStudentMajor.
   * Only a missing key moves on; an empty list raises.
   */
  function MajorDisplayName(entry: LdapEntry): (r: Result<string>)
    ensures "displayName" in entry ==> r == FirstValue(entry, "displayName")
    ensures "displayName" !in entry && "title" in entry ==> r == FirstValue(entry, "title")
    ensures "displayName" !in entry && "title" !in entry ==> r == FirstValue(entry, "wmuStudentMajor")
  {
    if "displayName" in entry then FirstValue(entry, "displayName")
    else if "title" in entry then FirstValue(entry, "title")
    else FirstValue(entry, "wmuStudentMajor")
  }

  /** The display-name fallbacks of the tests: title when there is no displayName, then the student major code. */
  lemma TitleFallback(title: string)
    ensures MajorDisplayName(map["title" := [title]]) == Ok(Strip(title))
  {
    var e := map["title" := [title]];
    assert "displayName" !in e;
  }

  lemma CodeFallback(code: string)
    ensures MajorDisplayName(map["wmuStudentMajor" := [code]]) == Ok(Strip(code))
  {
    var e := map["wmuStudentMajor" := [code]];
    assert "displayName" !in e && "title" !in e;
  }

  predicate IsThreePart(code: string) {
    |Split(code, '-')| == 3
  }

  /**
   * The search in `_get_major_program_code` over two or more codes: the first
   * code with three dash parts, else the first code, stripped.
   */
  method SelectProgramCode(codes: seq<string>) returns (r: string)
    requires |codes| > 0
    ensures (exists k :: 0 <= k < |codes| && IsThreePart(codes[k])) ==>
              exists k :: 0 <= k < |codes| && IsThreePart(codes[k]) && r == Strip(codes[k])
                          && forall j :: 0 <= j < k ==> !IsThreePart(codes[j])
    ensures (forall k :: 0 <= k < |codes| ==> !IsThreePart(codes[k])) ==> r == Strip(codes[0])
  {
    var i := 0;
    while i < |codes|
      invariant 0 <= i <= |codes|
      invariant forall j :: 0 <= j < i ==> !IsThreePart(codes[j])
    {
      if |Split(codes[i], '-')| == 3 {
        return Strip(codes[i]);
      }
      i := i + 1;
    }
    r := Strip(codes[0]);
  }

  /**
   * `_get_major_program_code`: the wmuProgramCode values when present (an
   * empty list raises IndexError), otherwise wmuStudentMajor's first value.
   */
  method MajorProgramCode(entry: LdapEntry) returns (r: Result<string>)
    ensures "wmuProgramCode" !in entry ==> r == FirstValue(entry, "wmuStudentMajor")
    ensures "wmuProgramCode" in entry && |entry["wmuProgramCode"]| == 0 ==> r == Err(IndexError)
    ensures "wmuProgramCode" in entry && |entry["wmuProgramCode"]| == 1 ==> r == Ok(Strip(entry["wmuProgramCode"][0]))
    ensures "wmuProgramCode" in entry && |entry["wmuProgramCode"]| > 1 ==>
              r.Ok? && exists k :: 0 <= k < |entry["wmuProgramCode"]| && r.value == Strip(entry["wmuProgramCode"][k])
                                  && (k == 0 || IsThreePart(entry["wmuProgramCode"][k]))
                                  && forall j :: 0 <= j < k ==> !IsThreePart(entry["wmuProgramCode"][j])
  {
    if "wmuProgramCode" !in entry {
      return FirstValue(entry, "wmuStudentMajor");
    }
    var codes := entry["wmuProgramCode"];
    if |codes| > 1 {
      var code := SelectProgramCode(codes);
      r := Ok(code);
    } else if |codes| == 1 {
      r := Ok(Strip(codes[0]));
    } else {
      r := Err(IndexError);
    }
  }

  /** Where a major's department comes from: a named one, or 'na-unknown'. */
  datatype DepartmentSource = Named(name: string, code: string) | UnknownDepartment

  /**
   * `_get_major_department`: the stripped department name and student-major
   * code; a missing key or empty list on either gives the 'na-unknown' department.
   */
  function MajorDepartment(entry: LdapEntry): (r: DepartmentSource)
    ensures r.Named? <==> FirstValue(entry, "wmuDepartmentName").Ok? && FirstValue(entry, "wmuStudentMajor").Ok?
    ensures r.Named? ==> r.name == FirstValue(entry, "wmuDepartmentName").value
  {
    var dept := FirstValue(entry, "wmuDepartmentName");
    var code := FirstValue(entry, "wmuStudentMajor");
    if dept.Err? || code.Err? then UnknownDepartment else Named(dept.value, code.value)
  }

  // ---------------------------------------------------------------------
  // add_or_update_major
  // ---------------------------------------------------------------------

  /** The slug of the "Unknown" major. */
  const UnknownMajor := "unk"

  /** One `WmuUserMajorRelationship` row of the user, by major slug. */
  datatype MajorLink = MajorLink(major: string, isActive: bool, dateStopped: Option<int>)

  /** What `get_student_major` returned: a list of majors, or a single one. */
  datatype ReturnedMajors = Many(majors: seq<string>) | One(major: string)

  function Handled(returned: ReturnedMajors): seq<string> {
    match returned
    case Many(ms) => ms
    case One(m) => [m]
  }

  predicate HasActive(links: seq<MajorLink>, major: string) {
    exists i :: 0 <= i < |links| && links[i].major == major && links[i].isActive
  }

  predicate AnyActive(links: seq<MajorLink>) {
    exists i :: 0 <= i < |links| && links[i].isActive
  }

  /**
   * `deactivate_student_major`'s date: the login user's last login when that
   * user exists and is inactive, the WmuUser's last change when there is no
   * login user and the WmuUser is inactive, otherwise now.
   */
  function DeactivationDate(loginUser: Option<(bool, int)>, wmuActive: bool, wmuModified: int, now: int): (r: int)
    ensures loginUser.Some? && !loginUser.value.0 ==> r == loginUser.value.1
    ensures loginUser.None? && !wmuActive ==> r == wmuModified
    ensures (loginUser.Some? && loginUser.value.0) || (loginUser.None? && wmuActive) ==> r == now
  {
    if loginUser.Some? then (if !loginUser.value.0 then loginUser.value.1 else now)
    else if !wmuActive then wmuModified
    else now
  }

  /**
   * `deactivate_student_major` as written: it fetches the user's relation to
   * the major with `.get`, so a second relation to the same major raises
   * MultipleObjectsReturned; and the save runs `clean`, which sees the active
   * flag drop and overwrites the computed date with now.
   */
  function DeactivateAsWritten(links: seq<MajorLink>, major: string, date: int, now: int): Result<seq<MajorLink>> {
    var matches := LinksOf(links, major);
    if |matches| == 0 then Err(DoesNotExist)
    else if |matches| > 1 then Err(MultipleObjectsReturned)
    else
      var i := matches[0];
      var stopped := if links[i].isActive then Some(now) else Some(date);
      Ok(links[i := links[i].(isActive := false, dateStopped := stopped)])
  }

  /** The positions of the user's relations to `major`, in order. */
  function LinksOf(links: seq<MajorLink>, major: string): (r: seq<nat>)
    ensures forall k :: 0 <= k < |r| ==> r[k] < |links| && links[r[k]].major == major
  {
    if links == [] then []
    else
      var n := |links| - 1;
      LinksOf(links[..n], major) + (if links[n].major == major then [n] else [])
  }

  /** A major dropped, taken up again and dropped once more makes the deactivation raise. */
  lemma ReturnedMajorCannotBeDropped(date: int, now: int)
    ensures DeactivateAsWritten([MajorLink("cs", false, Some(1)), MajorLink("cs", true, None)], "cs", date, now)
              == Err(MultipleObjectsReturned)
  {
    var links := [MajorLink("cs", false, Some(1)), MajorLink("cs", true, None)];
    assert links[..1][..0] == [];
    assert LinksOf(links[..1], "cs") == [0];
    assert LinksOf(links, "cs") == [0, 1];
  }

  /** Even a single relation gets "now" as its stop date, whatever date was computed. */
  lemma DeactivationDateIgnored(date: int, now: int)
    ensures DeactivateAsWritten([MajorLink("cs", true, None)], "cs", date, now)
              == Ok([MajorLink("cs", false, Some(now))])
  {
    var links := [MajorLink("cs", true, None)];
    assert links[..0] == [];
    assert LinksOf(links[..0], "cs") == [];
    assert LinksOf(links, "cs") == [0];
    assert links[0 := MajorLink("cs", false, Some(now))] == [MajorLink("cs", false, Some(now))];
  }

  /** Deactivation as intended: the user's active relation(s) to the major stop on the computed date. */
  function Deactivate(link: MajorLink, drop: string -> bool, date: int): MajorLink {
    if link.isActive && drop(link.major) then link.(isActive := false, dateStopped := Some(date)) else link
  }

  /** Every active relation whose major is not in `keep` stops on `date`. */
  function DeactivateOthers(links: seq<MajorLink>, keep: seq<string>, date: int): (r: seq<MajorLink>)
    ensures |r| == |links|
    ensures forall i :: 0 <= i < |links| ==> r[i] == Deactivate(links[i], m => m !in keep, date)
  {
    seq(|links|, i requires 0 <= i < |links| => Deactivate(links[i], m => m !in keep, date))
  }

  /** Creating a relation for each of `majors[..n]` the user is not actively pursuing. */
  function AddMissing(links: seq<MajorLink>, majors: seq<string>, n: nat): seq<MajorLink>
    requires n <= |majors|
  {
    if n == 0 then links else WithMajor(AddMissing(links, majors, n - 1), majors[n - 1])
  }

  /**
   * The earlier relations are kept, every added one is an open active
   * relation to one of the majors, and each of the majors is actively
   * pursued afterwards.
   */
  lemma {:induction false} AddMissingKeeps(links: seq<MajorLink>, majors: seq<string>, n: nat)
    requires n <= |majors|
    ensures var r := AddMissing(links, majors, n);
      |links| <= |r| && r[..|links|] == links
      && (forall i :: |links| <= i < |r| ==> r[i].isActive && r[i].dateStopped.None? && r[i].major in majors[..n])
      && (forall j :: 0 <= j < n ==> HasActive(r, majors[j]))
  {
    if n > 0 {
      var prev := AddMissing(links, majors, n - 1);
      AddMissingKeeps(links, majors, n - 1);
      assert majors[..n - 1] <= majors[..n];
      var r := WithMajor(prev, majors[n - 1]);
      assert r[..|prev|] == prev;
      assert r[..|links|] == prev[..|links|];
      assert forall j :: 0 <= j < n - 1 ==> HasActive(prev, majors[j]) ==> HasActive(r, majors[j]);
      assert HasActive(r, majors[n - 1]) by {
        if !HasActive(prev, majors[n - 1]) {
          assert r[|prev|].major == majors[n - 1] && r[|prev|].isActive;
        }
      }
    }
  }

  /** A relation for `major` is added exactly when none is active for it yet. */
  function WithMajor(links: seq<MajorLink>, major: string): seq<MajorLink> {
    if HasActive(links, major) then links else links + [MajorLink(major, true, None)]
  }

  /** One more major adds a relation exactly when none is active for it yet. */
  lemma AddMissingStep(links: seq<MajorLink>, majors: seq<string>, k: nat, current: seq<MajorLink>)
    requires k < |majors| && current == AddMissing(links, majors, k)
    ensures AddMissing(links, majors, k + 1) == WithMajor(current, majors[k])
  {
  }

  /** The user's relations after `add_or_update_major` (with deactivation as intended). */
  function SyncedMajors(links: seq<MajorLink>, wmuActive: bool, returned: ReturnedMajors, date: int): seq<MajorLink> {
    if !wmuActive then DeactivateOthers(links, [], date)
    else if returned.One? && returned.major == UnknownMajor && AnyActive(links) then DeactivateOthers(links, [], date)
    else
      var ms := Handled(returned);
      DeactivateOthers(AddMissing(links, ms, |ms|), ms, date)
  }

  /** An inactive WmuUser keeps no active major and gains no relation. */
  lemma InactiveUserDropsMajors(links: seq<MajorLink>, returned: ReturnedMajors, date: int)
    ensures var r := SyncedMajors(links, false, returned, date);
      |r| == |links| && !AnyActive(r)
  {
  }

  /**
   * For an active WmuUser, a major is actively pursued afterwards exactly
   * when the directory returned it, except that a lone "Unknown" never joins
   * other active majors: then every active major is dropped instead.
   */
  lemma SyncedActiveMajors(links: seq<MajorLink>, returned: ReturnedMajors, date: int, m: string)
    ensures var r := SyncedMajors(links, true, returned, date);
      if returned.One? && returned.major == UnknownMajor && AnyActive(links) then !AnyActive(r) && |r| == |links|
      else HasActive(r, m) <==> m in Handled(returned)
  {
    var r := SyncedMajors(links, true, returned, date);
    if !(returned.One? && returned.major == UnknownMajor && AnyActive(links)) {
      var ms := Handled(returned);
      var added := AddMissing(links, ms, |ms|);
      AddMissingKeeps(links, ms, |ms|);
      assert ms[..|ms|] == ms;
      if m in ms {
        var j :| 0 <= j < |ms| && ms[j] == m;
        var i :| 0 <= i < |added| && added[i].major == m && added[i].isActive;
        assert r[i] == added[i];
      }
      if HasActive(r, m) {
        var i :| 0 <= i < |r| && r[i].major == m && r[i].isActive;
        assert r[i] == Deactivate(added[i], x => x !in ms, date);
      }
    }
  }

  /** History is kept: earlier relations are only ever switched off, and added ones are active and open. */
  lemma SyncedKeepsHistory(links: seq<MajorLink>, wmuActive: bool, returned: ReturnedMajors, date: int)
    ensures var r := SyncedMajors(links, wmuActive, returned, date);
      |links| <= |r|
      && (forall i :: 0 <= i < |links| ==> r[i].major == links[i].major && (r[i].isActive ==> links[i] == r[i]))
      && (forall i :: 0 <= i < |links| && !links[i].isActive ==> r[i] == links[i])
      && (forall i :: |links| <= i < |r| ==> r[i] == MajorLink(r[i].major, true, None))
  {
    var r := SyncedMajors(links, wmuActive, returned, date);
    if wmuActive && !(returned.One? && returned.major == UnknownMajor && AnyActive(links)) {
      var ms := Handled(returned);
      var added := AddMissing(links, ms, |ms|);
      AddMissingKeeps(links, ms, |ms|);
      assert forall i :: 0 <= i < |links| ==> added[i] == added[..|links|][i] == links[i];
      assert ms[..|ms|] == ms;
    }
  }

  /** A lone "Unknown" toggles: dropped while it is the only active major, added back the next time. */
  lemma UnknownMajorToggles(date: int)
    ensures SyncedMajors([MajorLink(UnknownMajor, true, None)], true, One(UnknownMajor), date)
              == [MajorLink(UnknownMajor, false, Some(date))]
    ensures SyncedMajors([MajorLink(UnknownMajor, false, Some(date))], true, One(UnknownMajor), date)
              == [MajorLink(UnknownMajor, false, Some(date)), MajorLink(UnknownMajor, true, None)]
  {
    var l1 := [MajorLink(UnknownMajor, true, None)];
    assert AnyActive(l1) by { assert l1[0].isActive; }
    var l2 := [MajorLink(UnknownMajor, false, Some(date))];
    assert !AnyActive(l2);
    assert !HasActive(l2, UnknownMajor);
    var added := l2 + [MajorLink(UnknownMajor, true, None)];
    assert AddMissing(l2, [UnknownMajor], 0) == l2;
    assert AddMissing(l2, [UnknownMajor], 1) == added;
  }

  /**
   * How `wmu_user.major.filter(is_active=True)` is resolved. As written the
   * keyword names a field of Major, which has `active` and no `is_active`;
   * the active flag it evidently means lives on the relation rows.
   */
  datatype MajorLookup = MajorField | RelationField

  const IsActiveFieldMessage := "Cannot resolve keyword 'is_active' into field."

  /** The majors of the user's active relations, in relation order. */
  function ActiveMajors(links: seq<MajorLink>): (r: seq<string>)
    ensures |r| <= |links|
    ensures forall m :: m in r <==> HasActive(links, m)
  {
    if links == [] then []
    else
      var n := |links| - 1;
      var prev := ActiveMajors(links[..n]);
      assert forall m :: HasActive(links, m) <==> HasActive(links[..n], m) || (links[n].major == m && links[n].isActive) by {
        forall m | HasActive(links, m) ensures HasActive(links[..n], m) || (links[n].major == m && links[n].isActive) {
          var i :| 0 <= i < |links| && links[i].major == m && links[i].isActive;
          if i < n { assert links[..n][i] == links[i]; }
        }
        forall m | HasActive(links[..n], m) ensures HasActive(links, m) {
          var i :| 0 <= i < n && links[..n][i].major == m && links[..n][i].isActive;
          assert links[i] == links[..n][i];
        }
      }
      prev + (if links[n].isActive then [links[n].major] else [])
  }

  /** The queryset of the user's active majors, or the error building it raises. */
  function FilterActive(links: seq<MajorLink>, lookup: MajorLookup): (r: Result<seq<string>>)
    ensures lookup.MajorField? ==> r == Err(FieldError(IsActiveFieldMessage))
    ensures lookup.RelationField? ==> r.Ok? && (forall m :: m in r.value <==> HasActive(links, m))
  {
    match lookup
    case MajorField => Err(FieldError(IsActiveFieldMessage))
    case RelationField => Ok(ActiveMajors(links))
  }

  /**
   * The loop over the returned majors: a major without an active relation
   * has the active queryset built for the log line, then a relation created.
   */
  function CreateReturned(links: seq<MajorLink>, majors: seq<string>, n: nat, lookup: MajorLookup): Result<seq<MajorLink>>
    requires n <= |majors|
  {
    if n == 0 then Ok(links)
    else match CreateReturned(links, majors, n - 1, lookup)
      case Err(e) => Err(e)
      case Ok(prev) => CreateStep(prev, majors[n - 1], lookup)
  }

  /** One returned major: kept when actively pursued, else logged and created. */
  function CreateStep(links: seq<MajorLink>, major: string, lookup: MajorLookup): Result<seq<MajorLink>> {
    if HasActive(links, major) then Ok(links)
    else match FilterActive(links, lookup)
      case Err(e) => Err(e)
      case Ok(_) => Ok(links + [MajorLink(major, true, None)])
  }

  /** Creating the missing relations, then dropping every active major not handled. */
  function CreateAndDrop(links: seq<MajorLink>, handled: seq<string>, date: int, lookup: MajorLookup): Result<seq<MajorLink>> {
    match CreateReturned(links, handled, |handled|, lookup)
    case Err(e) => Err(e)
    case Ok(added) =>
      match FilterActive(added, lookup)
      case Err(e) => Err(e)
      case Ok(_) => Ok(DeactivateOthers(added, handled, date))
  }

  /** `add_or_update_major`, step by step, with the active-major queryset resolved by `lookup`. */
  function AddOrUpdate(links: seq<MajorLink>, wmuActive: bool, returned: ReturnedMajors, date: int, lookup: MajorLookup)
    : Result<seq<MajorLink>>
  {
    if !wmuActive then
      match FilterActive(links, lookup)
      case Err(e) => Err(e)
      case Ok(_) => Ok(DeactivateOthers(links, [], date))
    else if returned.One? && returned.major == UnknownMajor then
      match FilterActive(links, lookup)
      case Err(e) => Err(e)
      case Ok(active) =>
        if |active| > 0 then Ok(DeactivateOthers(links, [], date))
        else CreateAndDrop(links, Handled(returned), date, lookup)
    else CreateAndDrop(links, Handled(returned), date, lookup)
  }

  /** As written, the loop either raises on its first missing major or leaves the relations as they were. */
  lemma {:induction false} CreateReturnedAsWritten(links: seq<MajorLink>, majors: seq<string>, n: nat)
    requires n <= |majors|
    ensures var r := CreateReturned(links, majors, n, MajorField);
      r == Ok(links) || r == Err(FieldError(IsActiveFieldMessage))
  {
    if n > 0 {
      CreateReturnedAsWritten(links, majors, n - 1);
    }
  }

  /**
   * As written, every call raises FieldError (on an inactive user, on the
   * log line before a create, on a lone "Unknown", or on the final
   * deactivation pass) and no relation is created or dropped.
   */
  lemma AddOrUpdateAlwaysRaises(links: seq<MajorLink>, wmuActive: bool, returned: ReturnedMajors, date: int)
    ensures AddOrUpdate(links, wmuActive, returned, date, MajorField) == Err(FieldError(IsActiveFieldMessage))
  {
    var ms := Handled(returned);
    CreateReturnedAsWritten(links, ms, |ms|);
  }

  /** With the relation's flag, the loop creates exactly the relations `AddMissing` does. */
  lemma {:induction false} CreateReturnedIntended(links: seq<MajorLink>, majors: seq<string>, n: nat)
    requires n <= |majors|
    ensures CreateReturned(links, majors, n, RelationField) == Ok(AddMissing(links, majors, n))
  {
    if n > 0 {
      var prev := AddMissing(links, majors, n - 1);
      CreateReturnedIntended(links, majors, n - 1);
      CreateReturnedNext(links, majors, n, RelationField, prev);
      CreateStepIntended(prev, majors[n - 1]);
    }
  }

  lemma CreateReturnedNext(links: seq<MajorLink>, majors: seq<string>, n: nat, lookup: MajorLookup, prev: seq<MajorLink>)
    requires 0 < n <= |majors| && CreateReturned(links, majors, n - 1, lookup) == Ok(prev)
    ensures CreateReturned(links, majors, n, lookup) == CreateStep(prev, majors[n - 1], lookup)
  {
  }

  lemma CreateStepIntended(links: seq<MajorLink>, major: string)
    ensures CreateStep(links, major, RelationField) == Ok(WithMajor(links, major))
  {
  }

  /** With the relation's flag, `add_or_update_major` yields the synchronisation `SyncedMajors` describes. */
  lemma AddOrUpdateIntended(links: seq<MajorLink>, wmuActive: bool, returned: ReturnedMajors, date: int)
    ensures AddOrUpdate(links, wmuActive, returned, date, RelationField) == Ok(SyncedMajors(links, wmuActive, returned, date))
  {
    var ms := Handled(returned);
    CreateReturnedIntended(links, ms, |ms|);
    var active := ActiveMajors(links);
    assert |active| > 0 <==> AnyActive(links) by {
      if |active| > 0 {
        assert HasActive(links, active[0]);
      }
      if AnyActive(links) {
        var i :| 0 <= i < |links| && links[i].isActive;
        assert links[i].major in active;
      }
    }
  }

  /** The user's major relations. */
  class MajorRelations {
    var links: seq<MajorLink>

    constructor (links: seq<MajorLink>)
      ensures this.links == links
    {
      this.links := links;
    }

    /** Stop every active relation whose major is not in `keep`. */
    method DeactivateUnhandled(keep: seq<string>, date: int)
      modifies this
      ensures links == DeactivateOthers(old(links), keep, date)
    {
      var i := 0;
      while i < |links|
        invariant 0 <= i <= |links| == |old(links)|
        invariant forall j :: 0 <= j < i ==> links[j] == Deactivate(old(links)[j], m => m !in keep, date)
        invariant forall j :: i <= j < |links| ==> links[j] == old(links)[j]
      {
        if links[i].isActive && links[i].major !in keep {
          links := links[i := links[i].(isActive := false, dateStopped := Some(date))];
        }
        i := i + 1;
      }
    }

    /** Create an active relation for each returned major not already actively pursued. */
    method AddMissingMajors(majors: seq<string>)
      modifies this
      ensures links == AddMissing(old(links), majors, |majors|)
    {
      var k := 0;
      ghost var start := links;
      while k < |majors|
        invariant 0 <= k <= |majors|
        invariant links == AddMissing(start, majors, k)
      {
        var active := HasActiveMajor(majors[k]);
        var next := if active then links else links + [MajorLink(majors[k], true, None)];
        AddMissingStep(start, majors, k, links);
        links := next;
        k := k + 1;
      }
    }

    /** `check_if_user_has_major_active`. */
    method HasActiveMajor(major: string) returns (b: bool)
      ensures b == HasActive(links, major)
    {
      var i := 0;
      while i < |links|
        invariant 0 <= i <= |links|
        invariant forall j :: 0 <= j < i ==> !(links[j].major == major && links[j].isActive)
      {
        if links[i].major == major && links[i].isActive {
          return true;
        }
        i := i + 1;
      }
      b := false;
    }

    /** Whether any relation is active (`len(user_major_set) > 0`). */
    method HasAnyActive() returns (b: bool)
      ensures b == AnyActive(links)
    {
      var i := 0;
      while i < |links|
        invariant 0 <= i <= |links|
        invariant forall j :: 0 <= j < i ==> !links[j].isActive
      {
        if links[i].isActive {
          return true;
        }
        i := i + 1;
      }
      b := false;
    }

    /**
     * `add_or_update_major`: an inactive WmuUser drops every active major;
     * otherwise the returned majors are made active and every other active
     * major is dropped, except that a lone "Unknown" with active majors
     * present only drops them.
     */
    method AddOrUpdateMajor(wmuActive: bool, returned: ReturnedMajors, date: int)
      modifies this
      ensures links == SyncedMajors(old(links), wmuActive, returned, date)
    {
      if !wmuActive {
        DeactivateUnhandled([], date);
        return;
      }
      if returned.One? && returned.major == UnknownMajor {
        var any := HasAnyActive();
        if any {
          DeactivateUnhandled([], date);
          return;
        }
      }
      var handled := Handled(returned);
      AddMissingMajors(handled);
      DeactivateUnhandled(handled, date);
    }
  }
}
