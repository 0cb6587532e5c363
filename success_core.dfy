/**
 * The Student Success Center check-in views: which open usage logs an
 * employee sees, where a student is checked in, check-in and check-out,
 * the clean-up of duplicate open logs and the approval buttons.
 */
module SuccessCenterCore {
  import opened Wrappers
  import Queries

  // ---------------------------------------------------------------------
  // STEP groups and locations
  // ---------------------------------------------------------------------

  const StepEldridge := "STEP SSC - Eldridge"
  const StepFloyd := "STEP SSC - Floyd"
  const SscEldridge := "SSC - Eldridge"
  const SscFloyd := "SSC - Floyd"
  const StepEvent := "STEP - Event"

  /** `STEP_GROUP`: the groups that tie an employee to a location. */
  const StepGroup: seq<string> := ["STEP Bronco Study Zone", "STEP Statistics Tutoring", StepFloyd, StepEldridge, "STEP SSC - Event"]

  /** `STEP_GROUP_MAP` as the module defines it. */
  const InitialStepGroupMap: map<string, seq<string>> := map[
    "STEP Bronco Study Zone" := ["Bronco Study Zone"],
    "STEP Statistics Tutoring" := ["Statistics Tutoring"],
    StepEldridge := [SscEldridge, StepEvent],
    StepFloyd := [SscFloyd, StepEvent],
    "STEP SSC - Event" := [StepEvent, SscFloyd, SscEldridge]
  ]

  /** Membership in this group shows the logs of every location. */
  const AllLocationsGroup := "STEP All Locations"

  const IsStepGroup: string -> bool := g => g in StepGroup

  /** The user's groups that are STEP location groups, in the order the database lists them. */
  function StepGroupsOf(userGroups: seq<string>): (r: seq<string>)
    ensures forall g :: g in r <==> g in userGroups && g in StepGroup
  {
    Queries.Filter(userGroups, IsStepGroup)
  }

  /** Python's `list.remove(x)` for a present `x`: the first copy goes. */
  function RemoveFirst(xs: seq<string>, x: string): (r: seq<string>)
    requires x in xs
    ensures |r| == |xs| - 1
  {
    if xs[0] == x then xs[1..] else [xs[0]] + RemoveFirst(xs[1..], x)
  }

  /** Appending a value the list lacks and removing it again gives the list back. */
  lemma {:induction false} RemoveAppended(xs: seq<string>, x: string)
    requires x !in xs
    ensures RemoveFirst(xs + [x], x) == xs
  {
    if xs != [] {
      assert (xs + [x])[1..] == xs[1..] + [x];
      RemoveAppended(xs[1..], x);
    }
  }

  /** When the list already has the value, append-then-remove moves it to the end instead. */
  lemma RemoveAppendedPresent(x: string, y: string)
    requires x != y
    ensures RemoveFirst([x, y] + [x], x) == [y, x] != [x, y]
  {
    assert ([x, y] + [x])[1..] == [y, x];
  }

  /** A usage log: which student, where, when in and out, and whether approved. */
  datatype UsageLog = UsageLog(id: nat, student: string, location: Option<string>, checkIn: int, checkOut: Option<int>, approved: bool)

  const IsOpenLog: UsageLog -> bool := (l: UsageLog) => l.checkOut.None?

  /** Open logs at one of the named locations. */
  function OpenAt(names: seq<string>): UsageLog -> bool {
    (l: UsageLog) => l.checkOut.None? && l.location.Some? && l.location.value in names
  }

  /** The locations an employee of group `g` sees: the group's own, and each SSC site also sees the other. */
  function SharedSites(groups: map<string, seq<string>>, g: string): seq<string>
    requires g in groups
  {
    groups[g] + (if g == StepEldridge then [SscFloyd] else []) + (if g == StepFloyd then [SscEldridge] else [])
  }

  /** The open logs `filter_students_by_location` returns. */
  function VisibleLogs(groups: map<string, seq<string>>, userGroups: seq<string>, isAdmin: bool, locationCount: nat, logs: seq<UsageLog>): seq<UsageLog>
    requires forall g :: g in StepGroup ==> g in groups
  {
    var mine := StepGroupsOf(userGroups);
    if |mine| > 0 && locationCount > 0 && !isAdmin then
      assert mine[0] in mine;
      Queries.Filter(logs, OpenAt(SharedSites(groups, mine[0])))
    else Queries.Filter(logs, IsOpenLog)
  }

  /** Admins, and users with no location group, see every open log. */
  lemma AdminsSeeAllOpen(groups: map<string, seq<string>>, userGroups: seq<string>, isAdmin: bool, locationCount: nat, logs: seq<UsageLog>)
    requires forall g :: g in StepGroup ==> g in groups
    requires isAdmin || StepGroupsOf(userGroups) == [] || locationCount == 0
    ensures forall l :: l in VisibleLogs(groups, userGroups, isAdmin, locationCount, logs) <==> l in logs && l.checkOut.None?
  {
  }

  /** An SSC employee sees the open logs of both SSC sites. */
  lemma SscSeesBothSites(groups: map<string, seq<string>>, userGroups: seq<string>, locationCount: nat, logs: seq<UsageLog>, l: UsageLog)
    requires forall g :: g in StepGroup ==> g in groups
    requires StepGroupsOf(userGroups) != [] && StepGroupsOf(userGroups)[0] in {StepEldridge, StepFloyd} && locationCount > 0
    requires SscEldridge in groups[StepEldridge] && SscFloyd in groups[StepFloyd]
    requires l in logs && l.checkOut.None? && l.location in {Some(SscEldridge), Some(SscFloyd)}
    ensures l in VisibleLogs(groups, userGroups, false, locationCount, logs)
  {
  }

  /** The module-level `STEP_GROUP_MAP`, which `filter_students_by_location` changes and changes back. */
  class StepGroupMap {
    var groups: map<string, seq<string>>

    /** Every location group is mapped to at least one location, and neither SSC site already lists the other. */
    predicate Valid()
      reads this
    {
      (forall g :: g in StepGroup ==> g in groups && groups[g] != [])
      && StepEldridge in groups && StepFloyd in groups
      && SscFloyd !in groups[StepEldridge] && SscEldridge !in groups[StepFloyd]
    }

    constructor ()
      ensures groups == InitialStepGroupMap
      ensures Valid()
    {
      groups := InitialStepGroupMap;
    }

    /**
     * `filter_students_by_location`: for a located, non-admin employee, append
     * the other SSC site to both SSC lists, read the employee's first group's
     * list, then remove the two sites again.
     */
    method FilterStudentsByLocation(userGroups: seq<string>, isAdmin: bool, locationCount: nat, logs: seq<UsageLog>) returns (r: seq<UsageLog>)
      requires Valid()
      modifies this
      ensures groups == old(groups)
      ensures r == VisibleLogs(groups, userGroups, isAdmin, locationCount, logs)
    {
      var mine := StepGroupsOf(userGroups);
      if |mine| > 0 && locationCount > 0 && !isAdmin {
        var eldridge, floyd := groups[StepEldridge], groups[StepFloyd];
        assert mine[0] in mine;
        ghost var expected := SharedSites(groups, mine[0]);
        groups := groups[StepEldridge := eldridge + [SscFloyd]];
        groups := groups[StepFloyd := floyd + [SscEldridge]];
        assert groups[mine[0]] == expected;
        r := Queries.Filter(logs, OpenAt(groups[mine[0]]));
        RemoveAppended(eldridge, SscFloyd);
        RemoveAppended(floyd, SscEldridge);
        groups := groups[StepEldridge := RemoveFirst(groups[StepEldridge], SscFloyd)];
        groups := groups[StepFloyd := RemoveFirst(groups[StepFloyd], SscEldridge)];
        assert groups == old(groups);
      } else {
        r := Queries.Filter(logs, IsOpenLog);
      }
    }

    /**
     * `Index.get_context_data`'s check-in location: the first location of the
     * employee's first STEP group, or the profile's default tutor location
     * when the employee has none.
     */
    function CheckinLocation(userGroups: seq<string>, defaultLocation: Option<string>): (r: Option<string>)
      reads this
      requires Valid()
      ensures StepGroupsOf(userGroups) != [] ==> r == Some(groups[StepGroupsOf(userGroups)[0]][0])
      ensures StepGroupsOf(userGroups) == [] ==> r == defaultLocation
    {
      var mine := StepGroupsOf(userGroups);
      if mine != [] then
        assert mine[0] in mine;
        Some(groups[mine[0]][0])
      else defaultLocation
    }

    /**
     * `LogStudent.form_valid`'s check-in location: the stored tutor location
     * named first for the employee's first STEP group, or none when there is
     * no group or no such location (no profile fallback here).
     */
    function CheckInSite(userGroups: seq<string>, storedLocations: set<string>): (r: Option<string>)
      reads this
      requires Valid()
      ensures r.Some? ==> r.value in storedLocations && StepGroupsOf(userGroups) != [] && r == CheckinLocation(userGroups, None)
      ensures r.None? ==> StepGroupsOf(userGroups) == [] || CheckinLocation(userGroups, None).value !in storedLocations
    {
      var mine := StepGroupsOf(userGroups);
      if mine != [] then
        assert mine[0] in mine;
        var name := groups[mine[0]][0];
        if name in storedLocations then Some(name) else None
      else None
    }
  }

  /** The map as defined sends the Eldridge and Floyd employees to their own site. */
  lemma InitialSites()
    ensures InitialStepGroupMap[StepEldridge][0] == SscEldridge
    ensures InitialStepGroupMap[StepFloyd][0] == SscFloyd
  {
  }

  // ---------------------------------------------------------------------
  // Index.form_valid
  // ---------------------------------------------------------------------

  /** A card-swipe identifier longer than 10 characters keeps characters 1 to 9 (`[1:10]`). */
  function TruncateIdentifier(identifier: string): (r: string)
    ensures |r| <= 10
    ensures |identifier| <= 10 ==> r == identifier
    ensures |identifier| > 10 ==> |r| == 9 && r == identifier[1..10]
  {
    if |identifier| > 10 then identifier[1..10] else identifier
  }

  /** Truncation is idempotent: a truncated identifier is short enough to pass unchanged. */
  lemma TruncateIdempotent(identifier: string)
    ensures TruncateIdentifier(TruncateIdentifier(identifier)) == TruncateIdentifier(identifier)
  {
  }

  // ---------------------------------------------------------------------
  // Usage logs
  // ---------------------------------------------------------------------

  /** The open logs of one student. */
  predicate IsOpenFor(student: string, l: UsageLog) {
    l.student == student && l.checkOut.None?
  }

  function OpenFor(student: string): UsageLog -> bool {
    (l: UsageLog) => IsOpenFor(student, l)
  }

  function HasId(id: nat): UsageLog -> bool {
    (l: UsageLog) => l.id == id
  }

  const LogId: UsageLog -> nat := (l: UsageLog) => l.id

  const TenMinutes := 600

  /** The earliest of the logs by check-in; among equal check-ins the first listed. */
  function Earliest(logs: seq<UsageLog>): (r: UsageLog)
    requires logs != []
    ensures r in logs
    ensures forall l :: l in logs ==> r.checkIn <= l.checkIn
  {
    if |logs| == 1 then logs[0]
    else
      var e := Earliest(logs[..|logs| - 1]);
      assert logs == logs[..|logs| - 1] + [logs[|logs| - 1]];
      if logs[|logs| - 1].checkIn < e.checkIn then logs[|logs| - 1] else e
  }

  /** An open log of the student, other than the reference, checked in within ten minutes after it. */
  predicate IsDuplicate(student: string, reference: UsageLog, l: UsageLog) {
    IsOpenFor(student, l) && l.id != reference.id && l.checkIn - TenMinutes <= reference.checkIn
  }

  function Survives(student: string, reference: UsageLog): UsageLog -> bool {
    (l: UsageLog) => !IsDuplicate(student, reference, l)
  }

  /** The table after the duplicate open logs of `student` are deleted, the earliest open log being the reference. */
  function Deduplicated(logs: seq<UsageLog>, student: string): seq<UsageLog> {
    var open := Queries.Filter(logs, OpenFor(student));
    if open == [] then logs
    else Queries.Filter(logs, Survives(student, Earliest(open)))
  }

  /** Log ids are pairwise distinct. */
  predicate UniqueIds(logs: seq<UsageLog>) {
    forall i, j :: 0 <= i < j < |logs| ==> logs[i].id != logs[j].id
  }

  /** Every log id is below `bound`. */
  predicate IdsBelow(logs: seq<UsageLog>, bound: nat) {
    forall l :: l in logs ==> l.id < bound
  }

  /** The walk over the open logs that keeps the first one with the smallest check-in. */
  method EarliestLog(open: seq<UsageLog>) returns (reference: UsageLog)
    requires open != []
    ensures reference == Earliest(open)
  {
    reference := open[0];
    for k := 1 to |open|
      invariant reference == Earliest(open[..k])
    {
      assert open[..k + 1][..k] == open[..k];
      if open[k].checkIn < reference.checkIn {
        reference := open[k];
      }
    }
    assert open[..|open|] == open;
  }

  /** The deletion loop: the rows that are not duplicates of the reference, in order. */
  method DropDuplicates(rows: seq<UsageLog>, student: string, reference: UsageLog) returns (kept: seq<UsageLog>)
    ensures kept == Queries.Filter(rows, Survives(student, reference))
  {
    kept := [];
    for k := 0 to |rows|
      invariant kept == Queries.Filter(rows[..k], Survives(student, reference))
    {
      assert rows[..k + 1] == rows[..k] + [rows[k]];
      Queries.FilterSnoc(rows[..k], rows[k], Survives(student, reference));
      if !IsDuplicate(student, reference, rows[k]) {
        kept := kept + [rows[k]];
      }
    }
    assert rows[..|rows|] == rows;
  }

  /** What the check-in button did. */
  datatype CheckInOutcome = AlreadyCheckedIn | CheckedIn | LocationFailed

  /** The `StudentUsageLog` table. */
  class UsageTable {
    var logs: seq<UsageLog>
    var nextId: nat

    /** Log ids are distinct and below the next id to hand out. */
    predicate Valid()
      reads this
    {
      UniqueIds(logs) && IdsBelow(logs, nextId)
    }

    constructor ()
      ensures logs == [] && nextId == 0 && Valid()
    {
      logs := [];
      nextId := 0;
    }

    /** `StudentUsageLog.objects.get(student=..., check_out=None)`. */
    function GetOpen(student: string): Result<UsageLog>
      reads this
    {
      Queries.Get(logs, OpenFor(student))
    }

    /**
     * The MultipleObjectsReturned branch of `LogStudent.get_context_data`:
     * walking the open logs in check-in order, each one within ten minutes
     * after the first is deleted.
     */
    method DeleteDuplicates(student: string)
      requires Valid()
      modifies this
      ensures Valid() && nextId == old(nextId)
      ensures logs == Deduplicated(old(logs), student)
    {
      var open := Queries.Filter(logs, OpenFor(student));
      if open == [] {
        return;
      }
      var reference := EarliestLog(open);
      var kept := DropDuplicates(logs, student, reference);
      Queries.FilterKeepsKeysUnique(logs, Survives(student, reference), LogId);
      logs := kept;
    }

    /**
     * The usage `LogStudent.get_context_data` shows: none when the student
     * has no open log, the open log when there is one, and otherwise the one
     * left after the duplicates are deleted (the second lookup raises when
     * more than one remains).
     */
    method OpenUsage(student: string) returns (r: Result<Option<UsageLog>>)
      requires Valid()
      modifies this
      ensures Valid()
      ensures old(GetOpen(student)) == Err(DoesNotExist) ==> r == Ok(None) && logs == old(logs)
      ensures old(GetOpen(student)).Ok? ==> r == Ok(Some(old(GetOpen(student)).value)) && logs == old(logs)
      ensures old(GetOpen(student)) == Err(MultipleObjectsReturned) ==>
                logs == Deduplicated(old(logs), student)
                && (r.Ok? ==> GetOpen(student).Ok? && r == Ok(Some(GetOpen(student).value)))
                && (r.Err? ==> GetOpen(student).Err? && r.error == GetOpen(student).error)
    {
      var first := GetOpen(student);
      if first == Err(DoesNotExist) {
        r := Ok(None);
      } else if first.Ok? {
        r := Ok(Some(first.value));
      } else {
        DeleteDuplicates(student);
        var second := GetOpen(student);
        r := if second.Ok? then Ok(Some(second.value)) else Err(second.error);
      }
    }

    /** The check-in button of `LogStudent.form_valid`, with the location found for the employee. */
    method CheckIn(student: string, now: int, site: Option<string>) returns (outcome: CheckInOutcome)
      requires Valid()
      modifies this
      ensures Valid()
      ensures old(Queries.Filter(logs, OpenFor(student))) != [] ==> outcome == AlreadyCheckedIn && logs == old(logs) && nextId == old(nextId)
      ensures old(Queries.Filter(logs, OpenFor(student))) == [] && site.None? ==> outcome == LocationFailed && logs == old(logs) && nextId == old(nextId)
      ensures old(Queries.Filter(logs, OpenFor(student))) == [] && site.Some? ==>
                outcome == CheckedIn && nextId == old(nextId) + 1
                && logs == old(logs) + [UsageLog(old(nextId), student, site, now, None, false)]
                && GetOpen(student) == Ok(UsageLog(old(nextId), student, site, now, None, false))
    {
      var open := Queries.Filter(logs, OpenFor(student));
      if open != [] {
        outcome := AlreadyCheckedIn;
      } else if site.None? {
        outcome := LocationFailed;
      } else {
        var log := UsageLog(nextId, student, site, now, None, false);
        Queries.FilterSnoc(logs, log, OpenFor(student));
        logs := logs + [log];
        nextId := nextId + 1;
        outcome := CheckedIn;
      }
    }

    /** Sets the check-out time of the log with this id. */
    method CloseLog(id: nat, now: int)
      modifies this
      ensures nextId == old(nextId) && |logs| == |old(logs)|
      ensures forall i :: 0 <= i < |logs| ==> logs[i] == if old(logs)[i].id == id then old(logs)[i].(checkOut := Some(now)) else old(logs)[i]
    {
      var k := 0;
      while k < |logs|
        invariant 0 <= k <= |logs| && |logs| == |old(logs)| && nextId == old(nextId)
        invariant forall i :: 0 <= i < k ==> logs[i] == if old(logs)[i].id == id then old(logs)[i].(checkOut := Some(now)) else old(logs)[i]
        invariant forall i :: k <= i < |logs| ==> logs[i] == old(logs)[i]
      {
        if logs[k].id == id {
          logs := logs[k := logs[k].(checkOut := Some(now))];
        }
        k := k + 1;
      }
    }

    /** `student_checkout`: closes the student's open log; DoesNotExist and MultipleObjectsReturned propagate. */
    method StudentCheckout(student: string, now: int) returns (r: Result<UsageLog>)
      requires Valid()
      modifies this
      ensures Valid()
      ensures r == old(GetOpen(student)) && nextId == old(nextId)
      ensures r.Err? ==> logs == old(logs)
      ensures r.Ok? ==> |logs| == |old(logs)|
      ensures r.Ok? ==> forall i :: 0 <= i < |logs| ==>
                logs[i] == if old(logs)[i].id == r.value.id then old(logs)[i].(checkOut := Some(now)) else old(logs)[i]
      ensures r.Ok? ==> GetOpen(student) == Err(DoesNotExist)
    {
      r := GetOpen(student);
      if r.Ok? {
        var closed := r.value;
        CloseLog(closed.id, now);
        forall l | l in logs
          ensures !IsOpenFor(student, l)
        {
          var i :| 0 <= i < |logs| && logs[i] == l;
          assert old(logs)[i] in old(logs);
        }
      }
    }

    /**
     * The check-out button of `LogStudent.form_valid`: an `Ok` of false when
     * the student has no open log (the view warns and shows the student), an
     * error when several are open.
     */
    method CheckOut(student: string, now: int) returns (r: Result<bool>)
      requires Valid()
      modifies this
      ensures Valid()
      ensures r == Ok(false) <==> old(GetOpen(student)) == Err(DoesNotExist)
      ensures r == Ok(true) <==> old(GetOpen(student)).Ok?
      ensures r.Err? ==> r == Err(MultipleObjectsReturned)
      ensures r != Ok(true) ==> logs == old(logs)
      ensures nextId == old(nextId)
      ensures r == Ok(true) ==> |logs| == |old(logs)|
      ensures r == Ok(true) ==> forall i :: 0 <= i < |logs| ==>
                logs[i] == if old(logs)[i].id == old(GetOpen(student)).value.id
                           then old(logs)[i].(checkOut := Some(now)) else old(logs)[i]
      ensures r == Ok(true) ==> GetOpen(student) == Err(DoesNotExist)
    {
      var closed := StudentCheckout(student, now);
      if closed.Ok? {
        r := Ok(true);
      } else if closed.error == DoesNotExist {
        r := Ok(false);
      } else {
        r := Err(MultipleObjectsReturned);
      }
    }

    /** Sets `approved` on the log with this id. */
    method SetApproved(id: Option<nat>, approved: bool) returns (r: Result<UsageLog>)
      requires Valid()
      modifies this
      ensures Valid() && nextId == old(nextId) && |logs| == |old(logs)|
      ensures id.None? ==> r == Err(DoesNotExist)
      ensures id.Some? ==> r == Queries.Get(old(logs), HasId(id.value))
      ensures r.Err? ==> logs == old(logs)
      ensures r.Ok? ==> forall i :: 0 <= i < |logs| ==> logs[i] == if old(logs)[i].id == id.value then old(logs)[i].(approved := approved) else old(logs)[i]
    {
      if id.None? {
        return Err(DoesNotExist);
      }
      r := Queries.Get(logs, HasId(id.value));
      if r.Ok? {
        var k := 0;
        while k < |logs|
          invariant 0 <= k <= |logs| && |logs| == |old(logs)| && nextId == old(nextId)
          invariant forall i :: 0 <= i < k ==> logs[i] == if old(logs)[i].id == id.value then old(logs)[i].(approved := approved) else old(logs)[i]
          invariant forall i :: k <= i < |logs| ==> logs[i] == old(logs)[i]
        {
          if logs[k].id == id.value {
            logs := logs[k := logs[k].(approved := approved)];
          }
          k := k + 1;
        }
      }
    }

    /** `student_approve`: the approve button sets `approved`. */
    method StudentApprove(id: nat) returns (r: Result<UsageLog>)
      requires Valid()
      modifies this
      ensures Valid() && r == Queries.Get(old(logs), HasId(id)) && |logs| == |old(logs)| && nextId == old(nextId)
      ensures r.Ok? ==> forall i :: 0 <= i < |logs| ==>
                logs[i] == if old(logs)[i].id == id then old(logs)[i].(approved := true) else old(logs)[i]
      ensures r.Err? ==> logs == old(logs)
    {
      r := SetApproved(Some(id), true);
    }

    /** `student_approve_ajax`: the checkbox sets `approved` exactly when `check_value` is 'true'. */
    method StudentApproveAjax(id: Option<nat>, checkValue: Option<string>) returns (r: Result<UsageLog>)
      requires Valid()
      modifies this
      ensures Valid() && |logs| == |old(logs)| && nextId == old(nextId)
      ensures id.None? ==> r == Err(DoesNotExist)
      ensures id.Some? ==> r == Queries.Get(old(logs), HasId(id.value))
      ensures r.Ok? ==> forall i :: 0 <= i < |logs| ==>
                logs[i] == if old(logs)[i].id == id.value then old(logs)[i].(approved := checkValue == Some("true")) else old(logs)[i]
      ensures r.Err? ==> logs == old(logs)
    {
      r := SetApproved(id, checkValue == Some("true"));
    }

    /** `student_approve_all`: every log whose id was submitted is approved. */
    method StudentApproveAll(ids: set<nat>)
      requires Valid()
      modifies this
      ensures Valid() && |logs| == |old(logs)|
      ensures forall i :: 0 <= i < |logs| ==> logs[i] == if old(logs)[i].id in ids then old(logs)[i].(approved := true) else old(logs)[i]
    {
      var k := 0;
      while k < |logs|
        invariant 0 <= k <= |logs| && |logs| == |old(logs)| && nextId == old(nextId)
        invariant forall i :: 0 <= i < k ==> logs[i] == if old(logs)[i].id in ids then old(logs)[i].(approved := true) else old(logs)[i]
        invariant forall i :: k <= i < |logs| ==> logs[i] == old(logs)[i]
      {
        if logs[k].id in ids {
          logs := logs[k := logs[k].(approved := true)];
        }
        k := k + 1;
      }
    }
  }

  // ---------------------------------------------------------------------
  // What the duplicate clean-up leaves
  // ---------------------------------------------------------------------

  /** When every open log of the student is within ten minutes of the earliest, exactly the earliest is left open. */
  lemma DeduplicatedLeavesEarliest(logs: seq<UsageLog>, student: string)
    requires UniqueIds(logs)
    requires Queries.Filter(logs, OpenFor(student)) != []
    requires var e := Earliest(Queries.Filter(logs, OpenFor(student)));
             forall l :: l in logs && IsOpenFor(student, l) ==> l.checkIn - TenMinutes <= e.checkIn
    ensures Queries.Get(Deduplicated(logs, student), OpenFor(student)) == Ok(Earliest(Queries.Filter(logs, OpenFor(student))))
  {
    var e := Earliest(Queries.Filter(logs, OpenFor(student)));
    var kept := Queries.Filter(logs, Survives(student, e));
    Queries.FilterKeepsKeysUnique(logs, Survives(student, e), LogId);
    assert e in logs && !IsDuplicate(student, e, e);
    assert e in kept;
    var i :| 0 <= i < |kept| && kept[i] == e;
    forall j | 0 <= j < |kept| && j != i
      ensures !IsOpenFor(student, kept[j])
    {
      assert kept[j] in kept;
      assert LogId(kept[j]) != LogId(kept[i]);
    }
    Queries.GetUnique(kept, OpenFor(student), i);
  }

  /** An open log more than ten minutes after the earliest survives, so the second lookup raises MultipleObjectsReturned. */
  lemma DeduplicatedCanLeaveSeveral(logs: seq<UsageLog>, student: string, late: UsageLog)
    requires Queries.Filter(logs, OpenFor(student)) != []
    requires late in logs && IsOpenFor(student, late)
    requires late.checkIn - TenMinutes > Earliest(Queries.Filter(logs, OpenFor(student))).checkIn
    ensures Queries.Get(Deduplicated(logs, student), OpenFor(student)) == Err(MultipleObjectsReturned)
  {
    var e := Earliest(Queries.Filter(logs, OpenFor(student)));
    var kept := Queries.Filter(logs, Survives(student, e));
    assert e in logs && !IsDuplicate(student, e, e);
    assert !IsDuplicate(student, e, late);
    assert e in kept && late in kept;
    TwoOpenLogs(kept, student, e, late);
  }

  /** Two different open logs of the student make the lookup raise MultipleObjectsReturned. */
  lemma TwoOpenLogs(rows: seq<UsageLog>, student: string, a: UsageLog, b: UsageLog)
    requires a in rows && b in rows && a != b
    requires IsOpenFor(student, a) && IsOpenFor(student, b)
    ensures Queries.Get(rows, OpenFor(student)) == Err(MultipleObjectsReturned)
  {
    var i :| 0 <= i < |rows| && rows[i] == a;
    var j :| 0 <= j < |rows| && rows[j] == b;
    if i < j {
      Queries.GetTwoMatches(rows, OpenFor(student), i, j);
    } else {
      Queries.GetTwoMatches(rows, OpenFor(student), j, i);
    }
  }
}
