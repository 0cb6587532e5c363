/**
 * The older advising backend kept under `settings/`: the same parsers, except
 * that a dash-free code of other than four characters yields no degree level
 * at all, the department needs only its name, and majors are only ever added.
 */
module SettingsAdvBackend {
  import opened Wrappers
  import opened Text
  import opened AdvBackend
  import opened LdapValues

  /** `_get_degree_level_from_program_code`: `None` where the dash-free branch falls through. */
  function SettingsDegreeLevel(code: string): Option<DegreeLevel> {
    var parts := Split(code, '-');
    if |parts| == 3 then Some(KeyLevel(parts[1]))
    else if |parts| == 2 then Some(PrefixLevel(parts[0]))
    else if |parts| == 1 then (if |parts[0]| == 4 then Some(LastCharLevel(parts[0][3])) else None)
    else Some(Unknown)
  }

  /** The two versions agree except on dash-free codes not four long, where this one gives nothing. */
  lemma DegreeLevelVersionsAgree(code: string)
    ensures SettingsDegreeLevel(code) ==
              if '-' !in code && |code| != 4 then None else Some(DegreeLevelFromProgramCode(code))
  {
    if '-' !in code {
      SplitNoSep(code, '-');
    } else {
      SplitHasSeveral(code);
    }
  }

  /** Text holding the separator splits into at least two pieces. */
  lemma {:induction false} SplitHasSeveral(s: string)
    requires '-' in s
    ensures |Split(s, '-')| >= 2
  {
    if s[0] != '-' {
      SplitHasSeveral(s[1..]);
    }
  }

  /** `_get_major_department`: only the department name is read; a missing key or empty list gives 'na-unknown'. */
  function SettingsMajorDepartment(entry: LdapEntry): (r: Option<string>)
    ensures r.Some? <==> "wmuDepartmentName" in entry && |entry["wmuDepartmentName"]| > 0
    ensures r.Some? ==> r.value == Strip(entry["wmuDepartmentName"][0])
  {
    var dept := FirstValue(entry, "wmuDepartmentName");
    if dept.Err? then None else Some(dept.value)
  }

  /** Wherever the newer version finds a named department, this one finds the same name. */
  lemma DepartmentVersionsAgree(entry: LdapEntry)
    ensures MajorDepartment(entry).Named? ==>
              SettingsMajorDepartment(entry) == Some(MajorDepartment(entry).name)
  {
  }

  /**
   * The add-only relations after the older `add_or_update_major`: every
   * returned major not actively pursued gets a new relation, and nothing is
   * switched off.
   */
  function AddedMajors(links: seq<MajorLink>, returned: ReturnedMajors): seq<MajorLink> {
    AddMissing(links, Handled(returned), |Handled(returned)|)
  }

  /** Every returned major is active afterwards, and no active relation is ever switched off. */
  lemma AddedMajorsNeverDrop(links: seq<MajorLink>, returned: ReturnedMajors, m: string)
    ensures var r := AddedMajors(links, returned);
      (m in Handled(returned) ==> HasActive(r, m))
      && (HasActive(links, m) ==> HasActive(r, m))
      && |links| <= |r| && forall i :: 0 <= i < |links| ==> r[i] == links[i]
  {
    var r := AddedMajors(links, returned);
    var ms := Handled(returned);
    AddMissingKeeps(links, ms, |ms|);
    assert ms[..|ms|] == ms;
    assert forall i :: 0 <= i < |links| ==> r[i] == r[..|links|][i];
    if HasActive(links, m) {
      var i :| 0 <= i < |links| && links[i].major == m && links[i].isActive;
      assert r[i] == links[i];
    }
  }

  /** The older `add_or_update_major`, on the user's relations. */
  method AddOnlyMajors(relations: MajorRelations, returned: ReturnedMajors)
    modifies relations
    ensures relations.links == AddedMajors(old(relations.links), returned)
  {
    relations.AddMissingMajors(Handled(returned));
  }
}
