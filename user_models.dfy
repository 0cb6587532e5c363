/**
 * The three user records of `cae_home` (the login `User`, the directory-backed
 * `WmuUser` and the `UserIntermediary` that ties them and the `Profile`
 * together), the reconciliation `compare_user_and_wmuuser_models` runs between
 * them, the `GroupMembership` history sync, the model `clean` methods and the
 * small lookup tables of `Profile` and `Address`.
 */
module UserModels {
  import opened Wrappers
  import opened Text
  import opened Slug

  const WmichDomain := "@wmich.edu"

  /** `shorthand_email` / `get_official_email`: the BroncoNet at the university's mail domain. */
  function ShorthandEmail(broncoNet: string): string {
    broncoNet + WmichDomain
  }

  /** The part of an address before its first '@', or the whole text when there is none. */
  function BeforeAt(s: string): (r: string)
    ensures |r| <= |s| && r == s[..|r|] && '@' !in r
    ensures |r| < |s| ==> s[|r|] == '@'
  {
    if s == [] || s[0] == '@' then [] else [s[0]] + BeforeAt(s[1..])
  }

  /** The mailbox of a shorthand email is the BroncoNet it was made from. */
  lemma {:induction false} ShorthandEmailMailbox(broncoNet: string)
    requires '@' !in broncoNet
    ensures BeforeAt(ShorthandEmail(broncoNet)) == broncoNet
  {
    if broncoNet != [] {
      assert ShorthandEmail(broncoNet)[1..] == ShorthandEmail(broncoNet[1..]);
      ShorthandEmailMailbox(broncoNet[1..]);
    }
  }

  // ---------------------------------------------------------------------
  // Record snapshots
  // ---------------------------------------------------------------------

  /** The setting lists the reconciliation consults. */
  datatype GroupSettings = GroupSettings(
    adminGroups: seq<string>,
    caeCenterGroups: seq<string>,
    successCenterGroups: seq<string>,
    gradAppsGroups: seq<string>,
    seedUsers: seq<string>)

  const ProgrammerGroup := "CAE Programmer"

  /** A group in `CAE_ADMIN_GROUPS + ['CAE Programmer']` makes its member staff. */
  predicate GivesStaff(s: GroupSettings, g: string) {
    g in s.adminGroups || g == ProgrammerGroup
  }

  /** A group of any of the three projects makes its member active. */
  predicate GivesActive(s: GroupSettings, g: string) {
    g in s.caeCenterGroups || g in s.successCenterGroups || g in s.gradAppsGroups
  }

  predicate ActiveByGroups(s: GroupSettings, groups: seq<string>) {
    exists j :: 0 <= j < |groups| && GivesActive(s, groups[j])
  }

  predicate StaffByGroups(s: GroupSettings, groups: seq<string>) {
    exists j :: 0 <= j < |groups| && GivesStaff(s, groups[j])
  }

  /** The shipped settings list every staff group among the active ones too. */
  predicate StaffGroupsAreActive(s: GroupSettings) {
    ProgrammerGroup in s.caeCenterGroups
    && forall g :: g in s.adminGroups ==> g in s.caeCenterGroups
  }

  datatype UserRec = UserRec(
    username: string, firstName: string, lastName: string, email: string,
    isActive: bool, isStaff: bool, groups: seq<string>)

  datatype WmuRec = WmuRec(
    broncoNet: string, winno: string, firstName: string, lastName: string,
    officialEmail: Option<string>, isActive: bool)

  datatype InterRec = InterRec(
    broncoNet: string, winno: string, firstName: string, lastName: string,
    caeIsActive: bool, wmuIsActive: bool)

  /** The three records part-way through the reconciliation, with `model_updated`. */
  datatype SyncState = SyncState(inter: InterRec, user: Option<UserRec>, wmu: Option<WmuRec>, updated: bool)

  /** The records alone, without the flag. */
  function Records(st: SyncState): (InterRec, Option<UserRec>, Option<WmuRec>) {
    (st.inter, st.user, st.wmu)
  }

  datatype NamePart = First | Last

  function UserName(u: UserRec, part: NamePart): string {
    if part == First then u.firstName else u.lastName
  }

  function WithUserName(u: UserRec, part: NamePart, v: string): UserRec {
    if part == First then u.(firstName := v) else u.(lastName := v)
  }

  function WmuName(w: WmuRec, part: NamePart): string {
    if part == First then w.firstName else w.lastName
  }

  function WithWmuName(w: WmuRec, part: NamePart, v: string): WmuRec {
    if part == First then w.(firstName := v) else w.(lastName := v)
  }

  function InterName(i: InterRec, part: NamePart): string {
    if part == First then i.firstName else i.lastName
  }

  function WithInterName(i: InterRec, part: NamePart, v: string): InterRec {
    if part == First then i.(firstName := v) else i.(lastName := v)
  }

  // ---------------------------------------------------------------------
  // compare_user_and_wmuuser_models, step by step on values
  // ---------------------------------------------------------------------

  /**
   * The error for a BroncoNet with neither record.  The source formats the
   * built-in `id` rather than the BroncoNet into the message.
   */
  const NoRecordsMessage := "Could not find associated user models for BroncoNet <built-in function id>."

  /** An empty intermediary winno falls back to the BroncoNet (saved at once, outside `model_updated`). */
  function WinnoDefault(i: InterRec): (r: InterRec)
    ensures r.winno != "" || i.broncoNet == ""
    ensures r.(winno := i.winno) == i
    ensures i.winno != "" ==> r == i
  {
    if i.winno == "" then i.(winno := i.broncoNet) else i
  }

  function SyncWinno(st: SyncState): (r: SyncState)
    ensures r.user == st.user && r.wmu == st.wmu && r.inter.(winno := st.inter.winno) == st.inter
    ensures r.inter.winno == if st.wmu.Some? then st.wmu.value.winno else st.inter.winno
  {
    if st.wmu.Some? && st.inter.winno != st.wmu.value.winno then
      st.(inter := st.inter.(winno := st.wmu.value.winno), updated := true)
    else st
  }

  /** Both records present and disagreeing: the stripped WmuUser name wins unless blank. */
  function SyncNamePair(st: SyncState, part: NamePart): SyncState {
    if st.user.Some? && st.wmu.Some? && UserName(st.user.value, part) != WmuName(st.wmu.value, part) then
      var name := Strip(WmuName(st.wmu.value, part));
      if name != "" then st.(user := Some(WithUserName(st.user.value, part, name)), updated := true)
      else st.(wmu := Some(WithWmuName(st.wmu.value, part, UserName(st.user.value, part))), updated := true)
    else st
  }

  function NameFromUser(st: SyncState, part: NamePart): (r: SyncState)
    ensures r.user == st.user && r.wmu == st.wmu
    ensures r.inter == WithInterName(st.inter, part, InterName(r.inter, part))
    ensures st.user.Some? ==> InterName(r.inter, part) == UserName(st.user.value, part)
    ensures st.user.None? ==> r == st
  {
    if st.user.Some? && InterName(st.inter, part) != UserName(st.user.value, part) then
      st.(inter := WithInterName(st.inter, part, UserName(st.user.value, part)), updated := true)
    else st
  }

  function NameFromWmu(st: SyncState, part: NamePart): (r: SyncState)
    ensures r.user == st.user && r.wmu == st.wmu
    ensures r.inter == WithInterName(st.inter, part, InterName(r.inter, part))
    ensures st.wmu.Some? ==> InterName(r.inter, part) == WmuName(st.wmu.value, part)
    ensures st.wmu.None? ==> r == st
  {
    if st.wmu.Some? && InterName(st.inter, part) != WmuName(st.wmu.value, part) then
      st.(inter := WithInterName(st.inter, part, WmuName(st.wmu.value, part)), updated := true)
    else st
  }

  function SyncName(st: SyncState, part: NamePart): SyncState {
    NameFromWmu(NameFromUser(SyncNamePair(st, part), part), part)
  }

  /** A non-empty official email replaces a different login email. */
  function SyncEmail(st: SyncState): (r: SyncState)
    ensures r.inter == st.inter && r.wmu == st.wmu && r.user.Some? == st.user.Some?
    ensures st.user.Some? ==> r.user.value == st.user.value.(email := r.user.value.email)
    ensures st.user.Some? ==>
              r.user.value.email == if st.wmu.Some? && st.wmu.value.officialEmail.Some? && st.wmu.value.officialEmail.value != ""
                                    then st.wmu.value.officialEmail.value else st.user.value.email
  {
    if st.user.Some? && st.wmu.Some? && st.wmu.value.officialEmail.Some?
       && st.user.value.email != st.wmu.value.officialEmail.value && st.wmu.value.officialEmail.value != ""
    then st.(user := Some(st.user.value.(email := st.wmu.value.officialEmail.value)), updated := true)
    else st
  }

  /** The login flags follow group membership; seed users are always active staff. */
  function UserFlags(s: GroupSettings, u: UserRec): (r: UserRec)
    ensures r.(isActive := u.isActive, isStaff := u.isStaff) == u
    ensures u.username in s.seedUsers ==> r.isActive && r.isStaff
    ensures u.username !in s.seedUsers ==> r.isActive == ActiveByGroups(s, u.groups) && r.isStaff == StaffByGroups(s, u.groups)
  {
    var seed := u.username in s.seedUsers;
    u.(isActive := ActiveByGroups(s, u.groups) || seed, isStaff := StaffByGroups(s, u.groups) || seed)
  }

  function SyncUserFlags(st: SyncState, s: GroupSettings): (r: SyncState)
    ensures r.inter == st.inter && r.wmu == st.wmu
    ensures r.user == if st.user.Some? then Some(UserFlags(s, st.user.value)) else None
  {
    if st.user.Some? then
      var u := UserFlags(s, st.user.value);
      st.(user := Some(u), updated := st.updated || u.isActive != st.user.value.isActive || u.isStaff != st.user.value.isStaff)
    else st
  }

  /** The WmuUser is active when either directory says so. */
  function SyncWmuActive(st: SyncState): (r: SyncState)
    ensures r.inter == st.inter && r.user == st.user && r.wmu.Some? == st.wmu.Some?
    ensures st.wmu.Some? ==> r.wmu.value == st.wmu.value.(isActive := st.inter.caeIsActive || st.inter.wmuIsActive)
  {
    if st.wmu.Some? then
      var active := st.inter.caeIsActive || st.inter.wmuIsActive;
      if active != st.wmu.value.isActive then st.(wmu := Some(st.wmu.value.(isActive := active)), updated := true)
      else st
    else st
  }

  /** An inactive login user loses every group. */
  function ClearInactiveGroups(st: SyncState): (r: SyncState)
    ensures r.inter == st.inter && r.wmu == st.wmu && r.user.Some? == st.user.Some?
    ensures st.user.Some? ==> r.user.value == st.user.value.(groups := if st.user.value.isActive then st.user.value.groups else [])
  {
    if st.user.Some? && !st.user.value.isActive && st.user.value.groups != [] then
      st.(user := Some(st.user.value.(groups := [])), updated := true)
    else st
  }

  /** The whole reconciliation; whatever else it does, an inactive login user ends with no groups. */
  function Reconcile(st: SyncState, s: GroupSettings): (r: SyncState)
    ensures r.user.Some? && !r.user.value.isActive ==> r.user.value.groups == []
  {
    ClearInactiveGroups(SyncWmuActive(SyncUserFlags(SyncEmail(SyncName(SyncName(SyncWinno(st), First), Last)), s)))
  }

  /**
   * `compare_user_and_wmuuser_models` for the records found for one BroncoNet:
   * it fails exactly when there is neither a login User nor a WmuUser.
   */
  function Compare(inter: InterRec, user: Option<UserRec>, wmu: Option<WmuRec>, s: GroupSettings): (r: Result<SyncState>)
    ensures r.Err? <==> user.None? && wmu.None?
    ensures r.Err? ==> r.error == ValidationError(NoRecordsMessage)
    ensures r.Ok? ==> r.value.user.Some? == user.Some? && r.value.wmu.Some? == wmu.Some?
  {
    if user.None? && wmu.None? then Err(ValidationError(NoRecordsMessage))
    else
      ReconcileKeepsShape(SyncState(WinnoDefault(inter), user, wmu, false), s);
      Ok(Reconcile(SyncState(WinnoDefault(inter), user, wmu, false), s))
  }

  // ---------------------------------------------------------------------
  // What each step leaves alone
  // ---------------------------------------------------------------------

  /** Which records exist, the BroncoNets, the login username, the WmuUser winno and the directory flags. */
  predicate SameShape(a: SyncState, b: SyncState) {
    b.user.Some? == a.user.Some? && b.wmu.Some? == a.wmu.Some?
    && b.inter.broncoNet == a.inter.broncoNet
    && b.inter.caeIsActive == a.inter.caeIsActive && b.inter.wmuIsActive == a.inter.wmuIsActive
    && (a.user.Some? ==> b.user.value.username == a.user.value.username)
    && (a.wmu.Some? ==> b.wmu.value.broncoNet == a.wmu.value.broncoNet && b.wmu.value.winno == a.wmu.value.winno)
  }

  /** The three names of one part. */
  function Names(st: SyncState, part: NamePart): (string, Option<string>, Option<string>) {
    (InterName(st.inter, part),
     if st.user.Some? then Some(UserName(st.user.value, part)) else None,
     if st.wmu.Some? then Some(WmuName(st.wmu.value, part)) else None)
  }

  /** One name step touches only its own part's names and flag. */
  predicate NameStepFrame(a: SyncState, b: SyncState, part: NamePart) {
    SameShape(a, b)
    && b.inter == WithInterName(a.inter, part, InterName(b.inter, part))
    && (a.user.Some? ==> b.user.value == WithUserName(a.user.value, part, UserName(b.user.value, part)))
    && (a.wmu.Some? ==> b.wmu.value == WithWmuName(a.wmu.value, part, WmuName(b.wmu.value, part)))
  }

  lemma NameStepFrameChain(a: SyncState, b: SyncState, c: SyncState, part: NamePart)
    requires NameStepFrame(a, b, part) && NameStepFrame(b, c, part)
    ensures NameStepFrame(a, c, part)
  {
  }

  lemma NamePairFrame(st: SyncState, part: NamePart)
    ensures NameStepFrame(st, SyncNamePair(st, part), part)
  {
  }

  lemma NameFromUserFrame(st: SyncState, part: NamePart)
    ensures NameStepFrame(st, NameFromUser(st, part), part)
  {
  }

  lemma NameFromWmuFrame(st: SyncState, part: NamePart)
    ensures NameStepFrame(st, NameFromWmu(st, part), part)
  {
  }

  lemma SyncNameFrame(st: SyncState, part: NamePart)
    ensures NameStepFrame(st, SyncName(st, part), part)
  {
    var a := SyncNamePair(st, part);
    NamePairFrame(st, part);
    var b := NameFromUser(a, part);
    NameFromUserFrame(a, part);
    NameStepFrameChain(st, a, b, part);
    NameFromWmuFrame(b, part);
    NameStepFrameChain(st, b, NameFromWmu(b, part), part);
  }

  /** A name step leaves the other part's names as they were. */
  lemma OtherPartKept(a: SyncState, b: SyncState, part: NamePart, other: NamePart)
    requires NameStepFrame(a, b, part) && other != part
    ensures Names(b, other) == Names(a, other)
  {
  }

  /** Everything after the names: email, login flags, WmuUser activity, group clearing. */
  function Tail(st: SyncState, s: GroupSettings): SyncState {
    ClearInactiveGroups(SyncWmuActive(SyncUserFlags(SyncEmail(st), s)))
  }

  /** The tail keeps the shape, the winno and every name. */
  lemma TailKeepsNames(st: SyncState, s: GroupSettings)
    ensures var r := Tail(st, s);
      SameShape(st, r) && r.inter.winno == st.inter.winno
      && r.inter == st.inter
      && Names(r, First) == Names(st, First) && Names(r, Last) == Names(st, Last)
  {
    var a := SyncEmail(st);
    var b := SyncUserFlags(a, s);
    var c := SyncWmuActive(b);
    assert SameShape(st, a) && Names(a, First) == Names(st, First) && Names(a, Last) == Names(st, Last);
    assert SameShape(a, b) && Names(b, First) == Names(a, First) && Names(b, Last) == Names(a, Last);
    assert SameShape(b, c) && Names(c, First) == Names(b, First) && Names(c, Last) == Names(b, Last);
  }

  /** The reconciliation as a winno step, two name steps and the tail. */
  lemma ReconcileSteps(st: SyncState, s: GroupSettings)
    ensures var a := SyncWinno(st);
      var b := SyncName(a, First);
      var c := SyncName(b, Last);
      Reconcile(st, s) == Tail(c, s)
      && SameShape(st, a) && Names(a, First) == Names(st, First) && Names(a, Last) == Names(st, Last)
      && NameStepFrame(a, b, First) && NameStepFrame(b, c, Last)
  {
    SyncNameFrame(SyncWinno(st), First);
    SyncNameFrame(SyncName(SyncWinno(st), First), Last);
  }

  // ---------------------------------------------------------------------
  // What the reconciliation establishes
  // ---------------------------------------------------------------------

  /** Which records exist never changes, and the BroncoNets and directory flags are left alone. */
  lemma ReconcileKeepsShape(st: SyncState, s: GroupSettings)
    ensures SameShape(st, Reconcile(st, s))
  {
    ReconcileSteps(st, s);
    var a := SyncWinno(st);
    var b := SyncName(a, First);
    var c := SyncName(b, Last);
    TailKeepsNames(c, s);
  }

  /** The winno ends as the WmuUser's, or as the defaulted intermediary winno when there is no WmuUser. */
  lemma SyncedWinno(inter: InterRec, user: Option<UserRec>, wmu: Option<WmuRec>, s: GroupSettings)
    requires Compare(inter, user, wmu, s).Ok?
    ensures Compare(inter, user, wmu, s).value.inter.winno
      == if wmu.Some? then wmu.value.winno else WinnoDefault(inter).winno
  {
    var st := SyncState(WinnoDefault(inter), user, wmu, false);
    ReconcileSteps(st, s);
    var a := SyncWinno(st);
    var b := SyncName(a, First);
    var c := SyncName(b, Last);
    TailKeepsNames(c, s);
    assert a.inter.winno == if wmu.Some? then wmu.value.winno else WinnoDefault(inter).winno;
  }

  /** The pair step: a non-blank WmuUser name wins (stripped), a blank one takes the User's. */
  lemma NamePairValues(st: SyncState, part: NamePart)
    requires st.user.Some? && st.wmu.Some?
    ensures var r := SyncNamePair(st, part);
      var u := UserName(st.user.value, part);
      var w := WmuName(st.wmu.value, part);
      r.user.Some? && r.wmu.Some?
      && UserName(r.user.value, part) == (if u != w && Strip(w) != "" then Strip(w) else u)
      && WmuName(r.wmu.value, part) == (if u != w && Strip(w) == "" then u else w)
  {
  }

  /** After a name step the intermediary holds the WmuUser's name, or else the User's. */
  lemma IntermediaryFollows(st: SyncState, part: NamePart)
    ensures var r := SyncName(st, part);
      InterName(r.inter, part) ==
        (if r.wmu.Some? then WmuName(r.wmu.value, part)
         else if r.user.Some? then UserName(r.user.value, part)
         else InterName(st.inter, part))
  {
    var a := SyncNamePair(st, part);
    var b := NameFromUser(a, part);
    assert b.user == a.user && b.wmu == a.wmu;
    assert SyncName(st, part) == NameFromWmu(b, part);
  }

  /** A lone login User or a lone WmuUser keeps its name. */
  lemma LoneRecordKeepsName(st: SyncState, part: NamePart)
    requires st.user.None? || st.wmu.None?
    ensures var r := SyncName(st, part);
      r.user == st.user && r.wmu == st.wmu
  {
    var a := SyncNamePair(st, part);
    assert a == st;
    var b := NameFromUser(a, part);
    assert b.user == a.user && b.wmu == a.wmu;
  }

  /** The names as the reconciliation leaves them, for both parts. */
  lemma SyncedNames(inter: InterRec, user: Option<UserRec>, wmu: Option<WmuRec>, s: GroupSettings, part: NamePart)
    requires Compare(inter, user, wmu, s).Ok?
    ensures var r := Compare(inter, user, wmu, s).value;
      var names := Names(SyncState(inter, user, wmu, false), part);
      var u := if user.Some? then UserName(user.value, part) else "";
      var w := if wmu.Some? then WmuName(wmu.value, part) else "";
      (user.Some? && wmu.Some? ==>
         UserName(r.user.value, part) == (if u != w && Strip(w) != "" then Strip(w) else u)
         && WmuName(r.wmu.value, part) == (if u != w && Strip(w) == "" then u else w))
      && (user.None? || wmu.None? ==> Names(r, part).1 == names.1 && Names(r, part).2 == names.2)
      && InterName(r.inter, part) ==
           (if wmu.Some? then WmuName(r.wmu.value, part) else UserName(r.user.value, part))
  {
    var st := SyncState(WinnoDefault(inter), user, wmu, false);
    ReconcileSteps(st, s);
    var a := SyncWinno(st);
    var b := SyncName(a, First);
    var c := SyncName(b, Last);
    TailKeepsNames(c, s);
    var before, after := if part == First then a else b, if part == First then b else c;
    var other := if part == First then Last else First;
    assert Names(after, part) == Names(c, part) by {
      if part == First { OtherPartKept(b, c, Last, First); }
    }
    assert Names(before, part) == Names(st, part) by {
      if part == Last { OtherPartKept(a, b, First, Last); }
    }
    SyncNameResult(before, part);
  }

  /** One name step: the user and WmuUser names it leaves, and the intermediary name that follows them. */
  lemma SyncNameResult(st: SyncState, part: NamePart)
    ensures var r := SyncName(st, part);
      (st.user.Some? && st.wmu.Some? ==>
         var u := UserName(st.user.value, part);
         var w := WmuName(st.wmu.value, part);
         r.user.Some? && r.wmu.Some?
         && UserName(r.user.value, part) == (if u != w && Strip(w) != "" then Strip(w) else u)
         && WmuName(r.wmu.value, part) == (if u != w && Strip(w) == "" then u else w))
      && (st.user.None? || st.wmu.None? ==> r.user == st.user && r.wmu == st.wmu)
      && InterName(r.inter, part) ==
           (if r.wmu.Some? then WmuName(r.wmu.value, part)
            else if r.user.Some? then UserName(r.user.value, part)
            else InterName(st.inter, part))
  {
    IntermediaryFollows(st, part);
    var a := SyncNamePair(st, part);
    var b := NameFromUser(a, part);
    assert b.user == a.user && b.wmu == a.wmu;
    assert SyncName(st, part) == NameFromWmu(b, part);
    if st.user.Some? && st.wmu.Some? {
      NamePairValues(st, part);
    } else {
      LoneRecordKeepsName(st, part);
    }
  }

  /** With both records and a WmuUser name without stray spaces, all three records agree afterwards. */
  lemma NamesAgreeAfterSync(inter: InterRec, user: Option<UserRec>, wmu: Option<WmuRec>, s: GroupSettings, part: NamePart)
    requires user.Some? && wmu.Some?
    requires Strip(WmuName(wmu.value, part)) == WmuName(wmu.value, part)
    ensures var r := Compare(inter, user, wmu, s).value;
      UserName(r.user.value, part) == WmuName(r.wmu.value, part) == InterName(r.inter, part)
  {
    SyncedNames(inter, user, wmu, s, part);
  }

  /** The name fields the name steps leave alone: email, flags, groups, official email, directory flags. */
  lemma NameStepsKeepRest(st: SyncState)
    ensures var c := SyncName(SyncName(SyncWinno(st), First), Last);
      c.inter.caeIsActive == st.inter.caeIsActive && c.inter.wmuIsActive == st.inter.wmuIsActive
      && (st.user.Some? ==>
            c.user.Some? && c.user.value.email == st.user.value.email
            && c.user.value.groups == st.user.value.groups && c.user.value.username == st.user.value.username)
      && (st.wmu.Some? ==> c.wmu.Some? && c.wmu.value.officialEmail == st.wmu.value.officialEmail)
  {
    var a := SyncWinno(st);
    assert a.user == st.user && a.wmu == st.wmu;
    SyncNameFrame(a, First);
    SyncNameFrame(SyncName(a, First), Last);
  }

  /** What the steps after the names do to the login email, flags and groups and the WmuUser flag. */
  lemma TailValues(c: SyncState, s: GroupSettings)
    ensures var r := Tail(c, s);
      (c.user.Some? ==>
         r.user.Some?
         && r.user.value.email ==
              (if c.wmu.Some? && c.wmu.value.officialEmail.Some? && c.wmu.value.officialEmail.value != ""
               then c.wmu.value.officialEmail.value else c.user.value.email)
         && r.user.value.isActive == UserFlags(s, c.user.value).isActive
         && r.user.value.isStaff == UserFlags(s, c.user.value).isStaff
         && r.user.value.groups == (if r.user.value.isActive then c.user.value.groups else []))
      && (c.wmu.Some? ==> r.wmu.Some? && r.wmu.value.isActive == (c.inter.caeIsActive || c.inter.wmuIsActive))
  {
    var d := SyncEmail(c);
    assert d.user.Some? == c.user.Some? && d.inter == c.inter;
    assert c.user.Some? ==> d.user.value.groups == c.user.value.groups && d.user.value.username == c.user.value.username;
    var e := SyncUserFlags(d, s);
    assert e.inter == c.inter && e.wmu == d.wmu;
  }

  /** The login email becomes the WmuUser's official email whenever that is set and non-empty. */
  lemma SyncedEmail(inter: InterRec, user: Option<UserRec>, wmu: Option<WmuRec>, s: GroupSettings)
    requires user.Some?
    ensures Compare(inter, user, wmu, s).value.user.value.email ==
      (if wmu.Some? && wmu.value.officialEmail.Some? && wmu.value.officialEmail.value != ""
       then wmu.value.officialEmail.value else user.value.email)
  {
    var st := SyncState(WinnoDefault(inter), user, wmu, false);
    ReconcileSteps(st, s);
    NameStepsKeepRest(st);
    TailValues(SyncName(SyncName(SyncWinno(st), First), Last), s);
  }

  /** The login flags are derived from the groups held on entry; an inactive user ends with no groups. */
  lemma SyncedUserFlags(inter: InterRec, user: Option<UserRec>, wmu: Option<WmuRec>, s: GroupSettings)
    requires user.Some?
    ensures var r := Compare(inter, user, wmu, s).value;
      var seed := user.value.username in s.seedUsers;
      r.user.value.isActive == (ActiveByGroups(s, user.value.groups) || seed)
      && r.user.value.isStaff == (StaffByGroups(s, user.value.groups) || seed)
      && r.user.value.groups == (if r.user.value.isActive then user.value.groups else [])
  {
    var st := SyncState(WinnoDefault(inter), user, wmu, false);
    ReconcileSteps(st, s);
    NameStepsKeepRest(st);
    TailValues(SyncName(SyncName(SyncWinno(st), First), Last), s);
  }

  /** The WmuUser's activity is the disjunction of the two directory flags. */
  lemma SyncedWmuActive(inter: InterRec, user: Option<UserRec>, wmu: Option<WmuRec>, s: GroupSettings)
    requires wmu.Some?
    ensures Compare(inter, user, wmu, s).value.wmu.value.isActive == (inter.caeIsActive || inter.wmuIsActive)
  {
    var st := SyncState(WinnoDefault(inter), user, wmu, false);
    ReconcileSteps(st, s);
    NameStepsKeepRest(st);
    TailValues(SyncName(SyncName(SyncWinno(st), First), Last), s);
  }

  // ---------------------------------------------------------------------
  // The flag: a change is always reported
  // ---------------------------------------------------------------------

  /** A step that changes a record raises the flag, and no step lowers it. */
  predicate Reports(before: SyncState, after: SyncState) {
    (Records(after) != Records(before) ==> after.updated) && (before.updated ==> after.updated)
  }

  lemma ReportsChain(a: SyncState, b: SyncState, c: SyncState)
    requires Reports(a, b) && Reports(b, c)
    ensures Reports(a, c)
  {
  }

  lemma NameStepsReport(st: SyncState, part: NamePart)
    ensures Reports(st, SyncName(st, part))
  {
    var a := SyncNamePair(st, part);
    assert Reports(st, a);
    var b := NameFromUser(a, part);
    assert Reports(a, b);
    ReportsChain(st, a, b);
    assert Reports(b, NameFromWmu(b, part));
    ReportsChain(st, b, NameFromWmu(b, part));
  }

  lemma TailReports(c: SyncState, s: GroupSettings)
    ensures Reports(c, Tail(c, s))
  {
    var d := SyncEmail(c);
    assert Reports(c, d);
    var e := SyncUserFlags(d, s);
    if e.user != d.user {
      assert e.user.value == UserFlags(s, d.user.value);
      assert e.updated;
    }
    assert Reports(d, e);
    ReportsChain(c, d, e);
    var f := SyncWmuActive(e);
    assert Reports(e, f);
    ReportsChain(c, e, f);
    assert Reports(f, ClearInactiveGroups(f));
    ReportsChain(c, f, ClearInactiveGroups(f));
  }

  lemma {:induction false} ReconcileReports(st: SyncState, s: GroupSettings)
    ensures Reports(st, Reconcile(st, s))
  {
    ReconcileSteps(st, s);
    var a := SyncWinno(st);
    assert Reports(st, a);
    var b := SyncName(a, First);
    NameStepsReport(a, First);
    ReportsChain(st, a, b);
    var c := SyncName(b, Last);
    NameStepsReport(b, Last);
    ReportsChain(st, b, c);
    TailReports(c, s);
    ReportsChain(st, c, Tail(c, s));
  }

  /** Whenever a record other than the defaulted winno changes, the models are saved. */
  lemma ChangesAreSaved(inter: InterRec, user: Option<UserRec>, wmu: Option<WmuRec>, s: GroupSettings)
    requires Compare(inter, user, wmu, s).Ok?
    ensures var r := Compare(inter, user, wmu, s).value;
      (r.inter != WinnoDefault(inter) || r.user != user || r.wmu != wmu) ==> r.updated
  {
    ReconcileReports(SyncState(WinnoDefault(inter), user, wmu, false), s);
  }

  /** Two records that disagree on a name always get saved, even when the name step changes nothing. */
  lemma NameDisagreementSaved(st: SyncState, s: GroupSettings, part: NamePart)
    requires st.user.Some? && st.wmu.Some?
    requires UserName(st.user.value, part) != WmuName(st.wmu.value, part)
    ensures Reconcile(st, s).updated
  {
    ReconcileSteps(st, s);
    var a := SyncWinno(st);
    assert a.user == st.user && a.wmu == st.wmu;
    var b := SyncName(a, First);
    var c := SyncName(b, Last);
    var before := if part == First then a else b;
    assert Names(before, part) == Names(a, part) by {
      if part == Last { OtherPartKept(a, b, First, Last); }
    }
    var p := SyncNamePair(before, part);
    assert p.updated;
    NameStepsReport(p, part);
    assert Reports(p, NameFromWmu(NameFromUser(p, part), part)) by {
      var q := NameFromUser(p, part);
      assert Reports(p, q);
      assert Reports(q, NameFromWmu(q, part));
    }
    if part == First {
      NameStepsReport(b, Last);
    }
    TailReports(c, s);
  }

  /** One leading space before a name that starts and ends with a non-space is all `strip` removes. */
  lemma StripOneSpace(w: string)
    requires w != [] && !IsSpace(w[0]) && !IsSpace(w[|w| - 1])
    ensures Strip([' '] + w) == w
  {
    var t := [' '] + w;
    assert t[1..] == w;
    assert LStrip(t) == LStrip(w) == w;
  }

  lemma StripLeadingSpace()
    ensures Strip(" Ann") == "Ann"
  {
    StripOneSpace("Ann");
    assert [' '] + "Ann" == " Ann";
  }

  /** A WmuUser name with a leading space never settles: the User gets it stripped, the WmuUser keeps the space, and the models are saved on every run. */
  lemma SpacedWmuNameStaysApart(inter: InterRec, user: Option<UserRec>, wmu: Option<WmuRec>, s: GroupSettings)
    requires user.Some? && wmu.Some?
    requires user.value.firstName == "Ann" && wmu.value.firstName == " Ann"
    ensures var r := Compare(inter, user, wmu, s).value;
      r.user.value.firstName == "Ann" && r.wmu.value.firstName == " Ann" && r.inter.firstName == " Ann" && r.updated
  {
    StripLeadingSpace();
    SyncedNames(inter, user, wmu, s, First);
    NameDisagreementSaved(SyncState(WinnoDefault(inter), user, wmu, false), s, First);
  }

  // ---------------------------------------------------------------------
  // A second run settles
  // ---------------------------------------------------------------------

  /** WmuUser names as the directory sync stores them: without surrounding whitespace. */
  predicate TrimmedNames(w: WmuRec) {
    Strip(w.firstName) == w.firstName && Strip(w.lastName) == w.lastName
  }

  predicate SettledWmu(st: SyncState) {
    st.wmu.Some? ==>
      && st.inter.winno == st.wmu.value.winno
      && st.inter.firstName == st.wmu.value.firstName
      && st.inter.lastName == st.wmu.value.lastName
      && st.wmu.value.isActive == (st.inter.caeIsActive || st.inter.wmuIsActive)
  }

  predicate SettledUser(st: SyncState, s: GroupSettings) {
    st.user.Some? ==>
      && st.inter.firstName == st.user.value.firstName
      && st.inter.lastName == st.user.value.lastName
      && UserFlags(s, st.user.value) == st.user.value
      && (!st.user.value.isActive ==> st.user.value.groups == [])
      && (st.wmu.Some? && st.wmu.value.officialEmail.Some? && st.wmu.value.officialEmail.value != "" ==>
            st.user.value.email == st.wmu.value.officialEmail.value)
  }

  /** Records a reconciliation leaves untouched. */
  predicate Settled(st: SyncState, s: GroupSettings) {
    WinnoDefault(st.inter) == st.inter && SettledWmu(st) && SettledUser(st, s)
  }

  /** On settled records every step is the identity. */
  lemma SettledIsFixed(st: SyncState, s: GroupSettings)
    requires Settled(st, s)
    ensures Reconcile(st, s) == st
  {
    assert SyncWinno(st) == st;
    assert SyncNamePair(st, First) == st && NameFromUser(st, First) == st && NameFromWmu(st, First) == st;
    assert SyncNamePair(st, Last) == st && NameFromUser(st, Last) == st && NameFromWmu(st, Last) == st;
    assert SyncEmail(st) == st;
    assert SyncUserFlags(st, s) == st;
    assert SyncWmuActive(st) == st;
    assert ClearInactiveGroups(st) == st;
  }

  /** The login flags a reconciliation leaves are a fixed point of the derivation. */
  lemma SettledUserFlags(inter: InterRec, user: Option<UserRec>, wmu: Option<WmuRec>, s: GroupSettings)
    requires user.Some? && StaffGroupsAreActive(s)
    ensures var u := Compare(inter, user, wmu, s).value.user.value;
      UserFlags(s, u) == u && (!u.isActive ==> u.groups == [])
  {
    SyncedUserFlags(inter, user, wmu, s);
    var u := Compare(inter, user, wmu, s).value.user.value;
    if !u.isActive {
      assert !ActiveByGroups(s, []) && !StaffByGroups(s, []);
    }
  }

  lemma SettlesWinno(inter: InterRec, user: Option<UserRec>, wmu: Option<WmuRec>, s: GroupSettings)
    requires user.Some? || wmu.Some?
    requires wmu.Some? ==> wmu.value.winno != ""
    ensures var r := Compare(inter, user, wmu, s).value;
      WinnoDefault(r.inter) == r.inter
  {
    ReconcileKeepsShape(SyncState(WinnoDefault(inter), user, wmu, false), s);
    SyncedWinno(inter, user, wmu, s);
  }

  lemma SettlesWmu(inter: InterRec, user: Option<UserRec>, wmu: Option<WmuRec>, s: GroupSettings)
    requires wmu.Some?
    ensures SettledWmu(Compare(inter, user, wmu, s).value)
  {
    ReconcileKeepsShape(SyncState(WinnoDefault(inter), user, wmu, false), s);
    SyncedWinno(inter, user, wmu, s);
    SyncedNames(inter, user, wmu, s, First);
    SyncedNames(inter, user, wmu, s, Last);
    SyncedWmuActive(inter, user, wmu, s);
  }

  lemma SettlesUser(inter: InterRec, user: Option<UserRec>, wmu: Option<WmuRec>, s: GroupSettings)
    requires user.Some? && StaffGroupsAreActive(s)
    requires wmu.Some? ==> TrimmedNames(wmu.value)
    ensures SettledUser(Compare(inter, user, wmu, s).value, s)
  {
    var r := Compare(inter, user, wmu, s).value;
    SettledUserFlags(inter, user, wmu, s);
    SyncedEmail(inter, user, wmu, s);
    if wmu.Some? {
      ReconcileKeepsShape(SyncState(WinnoDefault(inter), user, wmu, false), s);
      NamesAgreeAfterSync(inter, user, wmu, s, First);
      NamesAgreeAfterSync(inter, user, wmu, s, Last);
    } else {
      SyncedNames(inter, user, wmu, s, First);
      SyncedNames(inter, user, wmu, s, Last);
    }
  }

  lemma CompareSettles(inter: InterRec, user: Option<UserRec>, wmu: Option<WmuRec>, s: GroupSettings)
    requires user.Some? || wmu.Some?
    requires StaffGroupsAreActive(s)
    requires wmu.Some? ==> wmu.value.winno != "" && TrimmedNames(wmu.value)
    ensures var r := Compare(inter, user, wmu, s).value;
      Settled(r.(updated := false), s)
  {
    SettlesWinno(inter, user, wmu, s);
    if wmu.Some? {
      SettlesWmu(inter, user, wmu, s);
    }
    if user.Some? {
      SettlesUser(inter, user, wmu, s);
    }
  }

  /**
   * Reconciling the records a reconciliation produced changes nothing and
   * saves nothing, provided the settings list every staff group as active
   * and the WmuUser holds a winno and trimmed names.
   */
  lemma CompareIsIdempotent(inter: InterRec, user: Option<UserRec>, wmu: Option<WmuRec>, s: GroupSettings)
    requires user.Some? || wmu.Some?
    requires StaffGroupsAreActive(s)
    requires wmu.Some? ==> wmu.value.winno != "" && TrimmedNames(wmu.value)
    ensures var r := Compare(inter, user, wmu, s).value;
      Compare(r.inter, r.user, r.wmu, s) == Ok(r.(updated := false))
  {
    var r := Compare(inter, user, wmu, s).value;
    CompareSettles(inter, user, wmu, s);
    SettledIsFixed(r.(updated := false), s);
    assert SyncState(WinnoDefault(r.inter), r.user, r.wmu, false) == r.(updated := false);
  }

  // ---------------------------------------------------------------------
  // The three models, updated in place
  // ---------------------------------------------------------------------

  /** The login `User`. */
  class LoginUser {
    var username: string
    var firstName: string
    var lastName: string
    var email: string
    var isActive: bool
    var isStaff: bool
    var groups: seq<string>

    function Rec(): UserRec
      reads this
    {
      UserRec(username, firstName, lastName, email, isActive, isStaff, groups)
    }

    function Name(part: NamePart): string
      reads this
    {
      UserName(Rec(), part)
    }

    method SetName(part: NamePart, v: string)
      modifies this`firstName, this`lastName
      ensures Rec() == WithUserName(old(Rec()), part, v)
    {
      if part == First { firstName := v; } else { lastName := v; }
    }

    /** The `for group in user_groups` loop and the seed-user override. */
    method DeriveFlags(s: GroupSettings)
      modifies this`isActive, this`isStaff
      ensures Rec() == UserFlags(s, old(Rec()))
    {
      isActive := false;
      isStaff := false;
      var i := 0;
      while i < |groups|
        invariant 0 <= i <= |groups|
        invariant isStaff == exists j :: 0 <= j < i && GivesStaff(s, groups[j])
        invariant isActive == exists j :: 0 <= j < i && GivesActive(s, groups[j])
      {
        var g := groups[i];
        if g in s.adminGroups + [ProgrammerGroup] {
          isStaff := true;
        }
        if g in s.caeCenterGroups {
          isActive := true;
        }
        if g in s.successCenterGroups {
          isActive := true;
        }
        if g in s.gradAppsGroups {
          isActive := true;
        }
        i := i + 1;
      }
      if username in s.seedUsers {
        isActive := true;
        isStaff := true;
      }
    }
  }

  /** The directory-backed `WmuUser`. */
  class WmuUser {
    var broncoNet: string
    var winno: string
    var firstName: string
    var lastName: string
    var officialEmail: Option<string>
    var isActive: bool

    function Rec(): WmuRec
      reads this
    {
      WmuRec(broncoNet, winno, firstName, lastName, officialEmail, isActive)
    }

    function Name(part: NamePart): string
      reads this
    {
      WmuName(Rec(), part)
    }

    method SetName(part: NamePart, v: string)
      modifies this`firstName, this`lastName
      ensures Rec() == WithWmuName(old(Rec()), part, v)
    {
      if part == First { firstName := v; } else { lastName := v; }
    }

    /** `clean`: an unset or empty official email becomes the shorthand email. */
    method Clean()
      modifies this`officialEmail
      ensures old(officialEmail).None? || old(officialEmail) == Some("") ==> officialEmail == Some(ShorthandEmail(broncoNet))
      ensures old(officialEmail).Some? && old(officialEmail) != Some("") ==> officialEmail == old(officialEmail)
      ensures officialEmail.Some? && officialEmail.value != ""
    {
      if officialEmail.None? || officialEmail == Some("") {
        officialEmail := Some(ShorthandEmail(broncoNet));
      }
    }
  }

  /** The `UserIntermediary` linking a login User, a WmuUser and a Profile. */
  class UserIntermediary {
    var user: LoginUser?
    var wmuUser: WmuUser?
    var hasProfile: bool
    /** Whether the model has a primary key yet. */
    var saved: bool
    var broncoNet: string
    var winno: string
    var firstName: string
    var lastName: string
    var caeIsActive: bool
    var wmuIsActive: bool
    var slug: string

    function Rec(): InterRec
      reads this
    {
      InterRec(broncoNet, winno, firstName, lastName, caeIsActive, wmuIsActive)
    }

    function Name(part: NamePart): string
      reads this
    {
      InterName(Rec(), part)
    }

    method SetName(part: NamePart, v: string)
      modifies this`firstName, this`lastName
      ensures Rec() == WithInterName(old(Rec()), part, v)
    {
      if part == First { firstName := v; } else { lastName := v; }
    }

    /**
     * `clean`: a User or a WmuUser is required; on creation the BroncoNet is
     * taken from the User's username, else from the WmuUser, and slugified;
     * after creation a profile is required.
     */
    method Clean() returns (r: Result<()>)
      modifies this`broncoNet, this`slug
      ensures user == null && wmuUser == null ==>
        r == Err(ValidationError(MissingUserMessage)) && broncoNet == old(broncoNet) && slug == old(slug)
      ensures (user != null || wmuUser != null) && !saved ==>
        r == Ok(()) && broncoNet == (if user != null then user.username else wmuUser.broncoNet) && slug == Slugify(broncoNet)
      ensures (user != null || wmuUser != null) && saved ==>
        (r.Ok? <==> hasProfile) && (r.Err? ==> r.error == ValidationError(MissingProfileMessage))
        && broncoNet == old(broncoNet) && slug == old(slug)
    {
      if user == null && wmuUser == null {
        r := Err(ValidationError(MissingUserMessage));
      } else if saved {
        r := if hasProfile then Ok(()) else Err(ValidationError(MissingProfileMessage));
      } else {
        SetBroncoNet(if user != null then user.username else wmuUser.broncoNet);
        r := Ok(());
      }
    }

    /** The BroncoNet and the slug made from it. */
    method SetBroncoNet(name: string)
      modifies this`broncoNet, this`slug
      ensures broncoNet == name && slug == Slugify(name)
    {
      broncoNet := name;
      slug := Slugify(name);
    }
  }

  const MissingUserMessage := "Must have relation to either \"User\" or \"WmuUser\" model."
  const MissingProfileMessage := "Must have associated user profile model."

  /** A new intermediary's slug is a slug, and the BroncoNet itself when that already is one. */
  lemma IntermediarySlug(broncoNet: string)
    ensures IsSlug(Slugify(broncoNet))
    ensures IsSlug(broncoNet) ==> Slugify(broncoNet) == broncoNet
  {
    SlugifyIsSlug(broncoNet);
    if IsSlug(broncoNet) {
      SlugifyFixesSlugs(broncoNet);
    }
  }

  function UserOf(u: LoginUser?): Option<UserRec>
    reads u
  {
    if u == null then None else Some(u.Rec())
  }

  function WmuOf(w: WmuUser?): Option<WmuRec>
    reads w
  {
    if w == null then None else Some(w.Rec())
  }

  function StateOf(inter: UserIntermediary, user: LoginUser?, wmu: WmuUser?, updated: bool): SyncState
    reads inter, user, wmu
  {
    SyncState(inter.Rec(), UserOf(user), WmuOf(wmu), updated)
  }

  /** The three name comparisons for one part, on the models. */
  method SyncNameFields(inter: UserIntermediary, user: LoginUser?, wmu: WmuUser?, part: NamePart, updated: bool)
    returns (nowUpdated: bool)
    modifies inter`firstName, inter`lastName, user, wmu
    ensures StateOf(inter, user, wmu, nowUpdated) == SyncName(old(StateOf(inter, user, wmu, updated)), part)
  {
    ghost var st := StateOf(inter, user, wmu, updated);
    nowUpdated := updated;
    if user != null && wmu != null && user.Name(part) != wmu.Name(part) {
      nowUpdated := true;
      var name := Strip(wmu.Name(part));
      if name != "" {
        user.SetName(part, name);
      } else {
        wmu.SetName(part, user.Name(part));
      }
    }
    ghost var a := StateOf(inter, user, wmu, nowUpdated);
    assert a == SyncNamePair(st, part);
    if user != null && inter.Name(part) != user.Name(part) {
      inter.SetName(part, user.Name(part));
      nowUpdated := true;
    }
    ghost var b := StateOf(inter, user, wmu, nowUpdated);
    assert b == NameFromUser(a, part);
    if wmu != null && inter.Name(part) != wmu.Name(part) {
      inter.SetName(part, wmu.Name(part));
      nowUpdated := true;
    }
  }

  method SyncWinnoField(inter: UserIntermediary, user: LoginUser?, wmu: WmuUser?, updated: bool)
    returns (nowUpdated: bool)
    modifies inter`winno
    ensures StateOf(inter, user, wmu, nowUpdated) == SyncWinno(old(StateOf(inter, user, wmu, updated)))
  {
    nowUpdated := updated;
    if wmu != null && inter.winno != wmu.winno {
      inter.winno := wmu.winno;
      nowUpdated := true;
    }
  }

  method SyncEmailField(inter: UserIntermediary, user: LoginUser?, wmu: WmuUser?, updated: bool)
    returns (nowUpdated: bool)
    modifies user
    ensures StateOf(inter, user, wmu, nowUpdated) == SyncEmail(old(StateOf(inter, user, wmu, updated)))
  {
    nowUpdated := updated;
    if user != null && wmu != null && wmu.officialEmail.Some?
       && user.email != wmu.officialEmail.value && wmu.officialEmail.value != "" {
      user.email := wmu.officialEmail.value;
      nowUpdated := true;
    }
  }

  method SyncUserFlagFields(inter: UserIntermediary, user: LoginUser?, wmu: WmuUser?, s: GroupSettings, updated: bool)
    returns (nowUpdated: bool)
    modifies user
    ensures StateOf(inter, user, wmu, nowUpdated) == SyncUserFlags(old(StateOf(inter, user, wmu, updated)), s)
  {
    nowUpdated := updated;
    if user != null {
      var origActive := user.isActive;
      var origStaff := user.isStaff;
      user.DeriveFlags(s);
      if user.isActive != origActive || user.isStaff != origStaff {
        nowUpdated := true;
      }
    }
  }

  method SyncWmuActiveField(inter: UserIntermediary, user: LoginUser?, wmu: WmuUser?, updated: bool)
    returns (nowUpdated: bool)
    modifies wmu
    ensures StateOf(inter, user, wmu, nowUpdated) == SyncWmuActive(old(StateOf(inter, user, wmu, updated)))
  {
    nowUpdated := updated;
    if wmu != null {
      if inter.caeIsActive || inter.wmuIsActive {
        if !wmu.isActive {
          wmu.isActive := true;
          nowUpdated := true;
        }
      } else if wmu.isActive {
        wmu.isActive := false;
        nowUpdated := true;
      }
    }
  }

  method ClearInactiveGroupsField(inter: UserIntermediary, user: LoginUser?, wmu: WmuUser?, updated: bool)
    returns (nowUpdated: bool)
    modifies user
    ensures StateOf(inter, user, wmu, nowUpdated) == ClearInactiveGroups(old(StateOf(inter, user, wmu, updated)))
  {
    nowUpdated := updated;
    if user != null && !user.isActive && user.groups != [] {
      user.groups := [];
      nowUpdated := true;
    }
  }

  /**
   * `compare_user_and_wmuuser_models` for one BroncoNet, given its
   * intermediary and the login User and WmuUser found for it (null when the
   * lookup raised `ObjectDoesNotExist`).  Returns whether the three models
   * were saved.
   */
  method CompareUserAndWmuUserModels(inter: UserIntermediary, user: LoginUser?, wmu: WmuUser?, s: GroupSettings)
    returns (r: Result<bool>)
    modifies inter`winno, inter`firstName, inter`lastName, user, wmu
    ensures var c := Compare(old(inter.Rec()), old(UserOf(user)), old(WmuOf(wmu)), s);
      (c.Err? ==> r == Err(c.error) && inter.Rec() == WinnoDefault(old(inter.Rec())))
      && (c.Ok? ==> r == Ok(c.value.updated) && StateOf(inter, user, wmu, c.value.updated) == c.value)
  {
    if inter.winno == "" {
      inter.winno := inter.broncoNet;
    }
    if user == null && wmu == null {
      return Err(ValidationError(NoRecordsMessage));
    }
    ghost var st := StateOf(inter, user, wmu, false);
    assert st == SyncState(WinnoDefault(old(inter.Rec())), old(UserOf(user)), old(WmuOf(wmu)), false);
    var updated := SyncWinnoField(inter, user, wmu, false);
    updated := SyncNameFields(inter, user, wmu, First, updated);
    updated := SyncNameFields(inter, user, wmu, Last, updated);
    updated := SyncEmailField(inter, user, wmu, updated);
    updated := SyncUserFlagFields(inter, user, wmu, s, updated);
    updated := SyncWmuActiveField(inter, user, wmu, updated);
    updated := ClearInactiveGroupsField(inter, user, wmu, updated);
    r := Ok(updated);
  }

  // ---------------------------------------------------------------------
  // check_user_group_membership
  // ---------------------------------------------------------------------

  /** A `GroupMembership` row: who was in which group, from when, until when. */
  datatype Membership = Membership(user: string, group: string, dateJoined: int, dateLeft: Option<int>)

  predicate IsOpenFor(m: Membership, uid: string) {
    m.user == uid && m.dateLeft.None?
  }

  predicate HasOpen(rows: seq<Membership>, uid: string, g: string) {
    exists i :: 0 <= i < |rows| && IsOpenFor(rows[i], uid) && rows[i].group == g
  }

  /** `found_groups`: the groups of the user's open memberships, in table order. */
  function OpenGroups(rows: seq<Membership>, uid: string): (r: seq<string>)
    ensures forall g :: g in r <==> HasOpen(rows, uid, g)
  {
    if rows == [] then []
    else
      var init := rows[..|rows| - 1];
      var last := rows[|rows| - 1];
      assert forall i :: 0 <= i < |init| ==> init[i] == rows[i];
      OpenGroups(init, uid) + (if IsOpenFor(last, uid) then [last.group] else [])
  }

  /** An open membership of a group the user no longer holds is closed today. */
  function CloseIfLeft(m: Membership, uid: string, groups: seq<string>, today: int): Membership {
    if IsOpenFor(m, uid) && m.group !in groups then m.(dateLeft := Some(today)) else m
  }

  function CloseStale(rows: seq<Membership>, uid: string, groups: seq<string>, today: int): (r: seq<Membership>)
    ensures |r| == |rows|
    ensures forall i :: 0 <= i < |rows| ==> r[i] == CloseIfLeft(rows[i], uid, groups, today)
  {
    seq(|rows|, i requires 0 <= i < |rows| => CloseIfLeft(rows[i], uid, groups, today))
  }

  /** The memberships opened for the first `n` held groups that had none open. */
  function Joined(groups: seq<string>, n: nat, found: seq<string>, uid: string, today: int): (r: seq<Membership>)
    requires n <= |groups|
    ensures forall k :: 0 <= k < |r| ==> r[k].user == uid && r[k].dateLeft.None? && r[k].dateJoined == today
                                         && r[k].group in groups[..n] && r[k].group !in found
  {
    if n == 0 then []
    else
      var g := groups[n - 1];
      Joined(groups, n - 1, found, uid, today) + (if g !in found then [Membership(uid, g, today, None)] else [])
  }

  lemma {:induction false} JoinedCovers(groups: seq<string>, n: nat, found: seq<string>, uid: string, today: int, j: nat)
    requires j < n <= |groups| && groups[j] !in found
    ensures HasOpen(Joined(groups, n, found, uid, today), uid, groups[j])
  {
    var g := groups[n - 1];
    var prev := Joined(groups, n - 1, found, uid, today);
    var tail := if g !in found then [Membership(uid, g, today, None)] else [];
    assert Joined(groups, n, found, uid, today) == prev + tail;
    if j < n - 1 {
      JoinedCovers(groups, n - 1, found, uid, today, j);
      var i :| 0 <= i < |prev| && IsOpenFor(prev[i], uid) && prev[i].group == groups[j];
      assert (prev + tail)[i] == prev[i];
    } else {
      assert (prev + tail)[|prev|] == Membership(uid, g, today, None);
    }
  }

  /** The membership table after `check_user_group_membership` for `uid` holding `groups`. */
  function SyncedMemberships(rows: seq<Membership>, uid: string, groups: seq<string>, today: int): seq<Membership> {
    CloseStale(rows, uid, groups, today) + Joined(groups, |groups|, OpenGroups(rows, uid), uid, today)
  }

  /** Afterwards the user has an open membership of a group exactly when they hold it. */
  lemma SyncedOpenGroups(rows: seq<Membership>, uid: string, groups: seq<string>, today: int, g: string)
    ensures HasOpen(SyncedMemberships(rows, uid, groups, today), uid, g) <==> g in groups
  {
    if g in groups {
      HeldGroupOpen(rows, uid, groups, today, g);
    }
    if HasOpen(SyncedMemberships(rows, uid, groups, today), uid, g) {
      OpenGroupHeld(rows, uid, groups, today, g);
    }
  }

  /** A held group has an open membership afterwards: the one found, or the one joined today. */
  lemma HeldGroupOpen(rows: seq<Membership>, uid: string, groups: seq<string>, today: int, g: string)
    requires g in groups
    ensures HasOpen(SyncedMemberships(rows, uid, groups, today), uid, g)
  {
    var closed := CloseStale(rows, uid, groups, today);
    var found := OpenGroups(rows, uid);
    var joined := Joined(groups, |groups|, found, uid, today);
    var r := closed + joined;
    if g in found {
      var i :| 0 <= i < |rows| && IsOpenFor(rows[i], uid) && rows[i].group == g;
      assert r[i] == closed[i] == rows[i];
    } else {
      var j :| 0 <= j < |groups| && groups[j] == g;
      JoinedCovers(groups, |groups|, found, uid, today, j);
      var k :| 0 <= k < |joined| && IsOpenFor(joined[k], uid) && joined[k].group == g;
      assert r[|closed| + k] == joined[k];
    }
  }

  /** An open membership afterwards is of a held group: stale ones were closed, new ones are held. */
  lemma OpenGroupHeld(rows: seq<Membership>, uid: string, groups: seq<string>, today: int, g: string)
    requires HasOpen(SyncedMemberships(rows, uid, groups, today), uid, g)
    ensures g in groups
  {
    var closed := CloseStale(rows, uid, groups, today);
    var joined := Joined(groups, |groups|, OpenGroups(rows, uid), uid, today);
    var r := closed + joined;
    var i :| 0 <= i < |r| && IsOpenFor(r[i], uid) && r[i].group == g;
    if i < |closed| {
      assert r[i] == CloseIfLeft(rows[i], uid, groups, today);
    } else {
      assert r[i] == joined[i - |closed|];
      assert g in groups[..|groups|];
    }
  }

  /**
   * History is kept: rows of other users and closed rows are untouched, an
   * open row only gets today's leaving date, and every added row is a new open
   * membership of the user, joined today.
   */
  lemma SyncedKeepsHistory(rows: seq<Membership>, uid: string, groups: seq<string>, today: int)
    ensures var r := SyncedMemberships(rows, uid, groups, today);
      |r| >= |rows|
      && (forall i :: 0 <= i < |rows| && !IsOpenFor(rows[i], uid) ==> r[i] == rows[i])
      && (forall i :: 0 <= i < |rows| && IsOpenFor(rows[i], uid) ==>
            r[i] == rows[i] || r[i] == rows[i].(dateLeft := Some(today)))
      && (forall i :: |rows| <= i < |r| ==> IsOpenFor(r[i], uid) && r[i].dateJoined == today && r[i].group in groups)
  {
    var closed := CloseStale(rows, uid, groups, today);
    var joined := Joined(groups, |groups|, OpenGroups(rows, uid), uid, today);
    assert forall i :: 0 <= i < |rows| ==> (closed + joined)[i] == closed[i];
    assert forall i :: |rows| <= i < |closed + joined| ==> (closed + joined)[i] == joined[i - |rows|];
    assert groups[..|groups|] == groups;
  }

  /** Running the sync twice with the same groups changes nothing the second time. */
  lemma SyncedMembershipsIdempotent(rows: seq<Membership>, uid: string, groups: seq<string>, today: int)
    ensures var r := SyncedMemberships(rows, uid, groups, today);
      SyncedMemberships(r, uid, groups, today) == r
  {
    var r := SyncedMemberships(rows, uid, groups, today);
    forall i | 0 <= i < |r| && IsOpenFor(r[i], uid)
      ensures r[i].group in groups
    {
      SyncedOpenGroups(rows, uid, groups, today, r[i].group);
    }
    assert CloseStale(r, uid, groups, today) == r;
    var found := OpenGroups(r, uid);
    forall g | g in groups
      ensures g in found
    {
      SyncedOpenGroups(rows, uid, groups, today, g);
    }
    NothingJoined(groups, |groups|, found, uid, today);
  }

  lemma {:induction false} NothingJoined(groups: seq<string>, n: nat, found: seq<string>, uid: string, today: int)
    requires n <= |groups|
    requires forall g :: g in groups ==> g in found
    ensures Joined(groups, n, found, uid, today) == []
  {
    if n > 0 {
      NothingJoined(groups, n - 1, found, uid, today);
    }
  }

  /** The `GroupMembership` table. */
  class MembershipTable {
    var rows: seq<Membership>

    /**
     * `check_user_group_membership`: close the open memberships of groups no
     * longer held, then open one for each held group without an open one.
     * `groups` is `None` when no login User has the username.
     */
    method CheckUserGroupMembership(uid: string, groups: Option<seq<string>>, today: int) returns (r: Result<()>)
      modifies this
      ensures groups.None? ==> r == Err(DoesNotExist) && rows == old(rows)
      ensures groups.Some? ==> r == Ok(()) && rows == SyncedMemberships(old(rows), uid, groups.value, today)
    {
      if groups.None? {
        return Err(DoesNotExist);
      }
      var found := CloseLeftGroups(uid, groups.value, today);
      JoinMissingGroups(uid, groups.value, found, today);
      r := Ok(());
    }

    /** The first loop: close memberships of groups left, collecting the groups still open. */
    method CloseLeftGroups(uid: string, userGroups: seq<string>, today: int) returns (found: seq<string>)
      modifies this
      ensures rows == CloseStale(old(rows), uid, userGroups, today)
      ensures found == OpenGroups(old(rows), uid)
    {
      found := [];
      var i := 0;
      while i < |rows|
        invariant 0 <= i <= |rows| == |old(rows)|
        invariant forall j :: 0 <= j < i ==> rows[j] == CloseIfLeft(old(rows)[j], uid, userGroups, today)
        invariant forall j :: i <= j < |rows| ==> rows[j] == old(rows)[j]
        invariant found == OpenGroups(old(rows)[..i], uid)
      {
        assert old(rows)[..i + 1][..i] == old(rows)[..i];
        if IsOpenFor(rows[i], uid) {
          found := found + [rows[i].group];
          if rows[i].group !in userGroups {
            rows := rows[i := rows[i].(dateLeft := Some(today))];
          }
        }
        i := i + 1;
      }
      assert old(rows)[..i] == old(rows);
    }

    /** The second loop: open a membership for each held group not found open. */
    method JoinMissingGroups(uid: string, userGroups: seq<string>, found: seq<string>, today: int)
      modifies this
      ensures rows == old(rows) + Joined(userGroups, |userGroups|, found, uid, today)
    {
      var k := 0;
      while k < |userGroups|
        invariant 0 <= k <= |userGroups|
        invariant rows == old(rows) + Joined(userGroups, k, found, uid, today)
      {
        if userGroups[k] !in found {
          rows := rows + [Membership(uid, userGroups[k], today, None)];
        }
        k := k + 1;
      }
    }
  }

  // ---------------------------------------------------------------------
  // WmuUserMajorRelationship.clean
  // ---------------------------------------------------------------------

  /** A WmuUser-to-Major relation, remembering the activity it was loaded with. */
  class MajorRelationship {
    var isActive: bool
    /** `_previous_active_value`, captured when the model is loaded. */
    var previousActive: bool
    var dateStopped: Option<int>

    constructor (active: bool, stopped: Option<int>)
      ensures isActive == active && previousActive == active && dateStopped == stopped
    {
      isActive := active;
      previousActive := active;
      dateStopped := stopped;
    }

    /** `clean`: a relation switched from active to inactive records when it stopped. */
    method Clean(now: int)
      modifies this`dateStopped
      ensures isActive != previousActive && !isActive ==> dateStopped == Some(now)
      ensures !(isActive != previousActive && !isActive) ==> dateStopped == old(dateStopped)
    {
      if isActive != previousActive && !isActive {
        dateStopped := Some(now);
      }
    }
  }

  // ---------------------------------------------------------------------
  // Profile font sizes and Address states
  // ---------------------------------------------------------------------

  const FontSizeChoices: seq<int> := [0, 1, 2, 3, 4, 5]

  /** `Profile.get_font_size`: the CSS size name of a font-size choice; anything unlisted is "base". */
  function FontSize(value: int): (r: string)
    ensures r == "base" <==> value !in [0, 1, 3, 4, 5]
  {
    if value == 0 then "xs"
    else if value == 1 then "sm"
    else if value == 3 then "md"
    else if value == 4 then "lg"
    else if value == 5 then "xl"
    else "base"
  }

  /** Each of the six choices has its own size name. */
  lemma FontSizesDistinct(a: int, b: int)
    requires a in FontSizeChoices && b in FontSizeChoices && a != b
    ensures FontSize(a) != FontSize(b)
  {
  }

  /** `get_desktop_font_size` / `get_mobile_font_size`: an omitted value means the profile's stored one. */
  function ProfileFontSize(stored: int, value: Option<int>): (r: string)
    ensures value.Some? ==> r == FontSize(value.value)
    ensures value.None? ==> r == FontSize(stored)
  {
    FontSize(if value.None? then stored else value.value)
  }

  /** A state choice, "XX - Name". */
  datatype StateChoice = StateChoice(first: char, second: char, name: string)

  function ChoiceLabel(c: StateChoice): string {
    [c.first, c.second] + " - " + c.name
  }

  /** `STATE_CHOICES`, by value. */
  function StateAt(i: nat): StateChoice
    requires i < StateCount
  {
    match i
    case 0 => StateChoice('A', 'L', "Alabama")
    case 1 => StateChoice('A', 'K', "Alaska")
    case 2 => StateChoice('A', 'Z', "Arizona")
    case 3 => StateChoice('A', 'R', "Arkansas")
    case 4 => StateChoice('C', 'A', "California")
    case 5 => StateChoice('C', 'O', "Colorado")
    case 6 => StateChoice('C', 'T', "Connecticut")
    case 7 => StateChoice('D', 'E', "Delaware")
    case 8 => StateChoice('F', 'L', "Florida")
    case 9 => StateChoice('G', 'A', "Georgia")
    case 10 => StateChoice('H', 'I', "Hawaii")
    case 11 => StateChoice('I', 'D', "Idaho")
    case 12 => StateChoice('I', 'L', "Illinois")
    case 13 => StateChoice('I', 'N', "Indiana")
    case 14 => StateChoice('I', 'A', "Iowa")
    case 15 => StateChoice('K', 'S', "Kansas")
    case 16 => StateChoice('K', 'Y', "Kentucky")
    case 17 => StateChoice('L', 'A', "Louisiana")
    case 18 => StateChoice('M', 'E', "Maine")
    case 19 => StateChoice('M', 'D', "Maryland")
    case 20 => StateChoice('M', 'A', "Massachusetts")
    case 21 => StateChoice('M', 'I', "Michigan")
    case 22 => StateChoice('M', 'N', "Minnesota")
    case 23 => StateChoice('M', 'S', "Mississippi")
    case 24 => StateChoice('M', 'O', "Missouri")
    case 25 => StateChoice('M', 'T', "Montana")
    case 26 => StateChoice('N', 'E', "Nebraska")
    case 27 => StateChoice('N', 'V', "Nevada")
    case 28 => StateChoice('N', 'H', "New Hampshire")
    case 29 => StateChoice('N', 'J', "New Jersey")
    case 30 => StateChoice('N', 'M', "New Mexico")
    case 31 => StateChoice('N', 'Y', "New York")
    case 32 => StateChoice('N', 'C', "North Carolina")
    case 33 => StateChoice('N', 'D', "North Dakota")
    case 34 => StateChoice('O', 'H', "Ohio")
    case 35 => StateChoice('O', 'K', "Oklahoma")
    case 36 => StateChoice('O', 'R', "Oregon")
    case 37 => StateChoice('P', 'A', "Pennsylvannia")
    case 38 => StateChoice('R', 'I', "Rhode Island")
    case 39 => StateChoice('S', 'C', "South Carolina")
    case 40 => StateChoice('S', 'D', "South Dakota")
    case 41 => StateChoice('T', 'N', "Tennessee")
    case 42 => StateChoice('T', 'X', "Texas")
    case 43 => StateChoice('U', 'T', "Utah")
    case 44 => StateChoice('V', 'T', "Vermont")
    case 45 => StateChoice('V', 'A', "Virginia")
    case 46 => StateChoice('W', 'A', "Washington")
    case 47 => StateChoice('W', 'V', "West Virginia")
    case 48 => StateChoice('W', 'I', "Wisconsin")
    case _ => StateChoice('W', 'Y', "Wyoming")
  }

  /** `len(STATE_CHOICES)`. */
  const StateCount := 50

  /** `STATE_CHOICES[value][1]`: a negative index counts from the end, anything else out of range is an IndexError. */
  function StateLabel(value: int): (r: Result<string>)
    ensures r.Ok? <==> -StateCount <= value < StateCount
    ensures 0 <= value < StateCount ==> r == Ok(ChoiceLabel(StateAt(value)))
    ensures -StateCount <= value < 0 ==> r == Ok(ChoiceLabel(StateAt(StateCount + value)))
    ensures r.Err? ==> r.error == IndexError
  {
    if 0 <= value < StateCount then Ok(ChoiceLabel(StateAt(value)))
    else if -StateCount <= value < 0 then Ok(ChoiceLabel(StateAt(StateCount + value)))
    else Err(IndexError)
  }

  /** Python's `s[k:]` and `s[:k]`, which clamp instead of failing. */
  function DropClamped(s: string, k: nat): string {
    if k <= |s| then s[k..] else []
  }

  function TakeClamped(s: string, k: nat): string {
    if k <= |s| then s[..k] else s
  }

  /** `get_state_as_string`: the label after its "XX - " prefix; an omitted value means the stored state. */
  function StateName(stored: int, value: Option<int>): Result<string> {
    var entry := StateLabel(if value.None? then stored else value.value);
    if entry.Err? then Err(entry.error) else Ok(DropClamped(entry.value, 5))
  }

  /** `get_state_abbrev_as_string`: the label's first two characters. */
  function StateAbbrev(stored: int, value: Option<int>): Result<string> {
    var entry := StateLabel(if value.None? then stored else value.value);
    if entry.Err? then Err(entry.error) else Ok(TakeClamped(entry.value, 2))
  }

  lemma ChoiceLabelParts(c: StateChoice)
    ensures DropClamped(ChoiceLabel(c), 5) == c.name
    ensures TakeClamped(ChoiceLabel(c), 2) == [c.first, c.second]
  {
    var l := ChoiceLabel(c);
    assert l[5..] == c.name;
    assert l[..2] == [c.first, c.second];
  }

  /**
   * Name and abbreviation split each label exactly: for any index Python
   * accepts, the label is the abbreviation, " - " and the name.
   */
  lemma StateLabelsSplit(value: int)
    requires -StateCount <= value < StateCount
    ensures var a := StateAbbrev(0, Some(value));
      var n := StateName(0, Some(value));
      var l := StateLabel(value);
      a.Ok? && n.Ok? && l.Ok? && |a.value| == 2 && l.value == a.value + " - " + n.value
  {
    var c := if value >= 0 then StateAt(value) else StateAt(StateCount + value);
    ChoiceLabelParts(c);
  }

  /** The values the address tests look up. */
  lemma StateExamples()
    ensures StateName(25, None) == Ok("Montana") && StateAbbrev(25, None) == Ok("MT")
    ensures StateName(0, Some(1)) == Ok("Alaska") && StateAbbrev(0, Some(1)) == Ok("AK")
    ensures StateName(0, Some(21)) == Ok("Michigan") && StateAbbrev(0, Some(21)) == Ok("MI")
    ensures StateName(0, Some(49)) == Ok("Wyoming") && StateAbbrev(0, Some(49)) == Ok("WY")
  {
    ChoiceLabelParts(StateAt(25));
    ChoiceLabelParts(StateAt(1));
    ChoiceLabelParts(StateAt(21));
    ChoiceLabelParts(StateAt(49));
  }
}
