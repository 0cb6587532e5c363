/**
 * The main-campus directory backend: whether a user is still enrolled or
 * employed, reading single fields from the user's entry, and the defaults a
 * new WmuUser's winno, names and email get from that entry.
 */
module WmuBackend {
  import opened Wrappers
  import opened Text
  import opened LdapValues
  import UserModels

  // ---------------------------------------------------------------------
  // Enrollment status
  // ---------------------------------------------------------------------

  const EnrolledKey := "wmuEnrolled"
  const InetStatusKey := "inetUserStatus"
  const KerberosKey := "wmuKerberosUserStatus"
  const EmployeeKey := "wmuEmployeeExpiration"
  const StudentKey := "wmuStudentExpiration"

  /** The retention period after an expiration, in days. */
  const RetentionDays := 365

  /** `str(ldap_info[key][0]).strip().lower()`, or `None` when the key or its first value is missing. */
  function StatusField(entry: LdapEntry, key: string): (r: Option<string>)
    ensures r.Some? <==> key in entry && |entry[key]| > 0
  {
    if key in entry && |entry[key]| > 0 then Some(Lower(Strip(entry[key][0]))) else None
  }

  /**
   * The two `strptime` formats, as day numbers: `day` reads `%Y%m%d`, `stamp`
   * reads `%Y%m%d%H%M%S%z` and keeps its date. `None` is a text the format refuses.
   */
  datatype DateParsers = DateParsers(day: string -> Option<int>, stamp: string -> Option<int>)

  /** Eight characters are read as a bare date, anything else as a full timestamp. */
  function ParseExpiration(field: string, p: DateParsers): Option<int> {
    if |field| == 8 then p.day(field) else p.stamp(field)
  }

  const DateFormatMessage := "time data does not match format"

  /** An expiration field: `None` when missing, the `ValueError` of `strptime` when unreadable. */
  function Expiration(entry: LdapEntry, key: string, p: DateParsers): (r: Result<Option<int>>)
    ensures r == Ok(None) <==> !(key in entry && |entry[key]| > 0)
    ensures r.Err? ==> r.error == ValueError(DateFormatMessage)
  {
    if key in entry && |entry[key]| > 0 then
      var d := ParseExpiration(Strip(entry[key][0]), p);
      if d.Some? then Ok(d) else Err(ValueError(DateFormatMessage))
    else Ok(None)
  }

  predicate OnOrAfter(d: Option<int>, day: int) {
    d.Some? && d.value >= day
  }

  predicate Enrolled(entry: LdapEntry) {
    StatusField(entry, EnrolledKey) == Some("true")
  }

  predicate InetActive(entry: LdapEntry) {
    StatusField(entry, InetStatusKey) == Some("active")
  }

  /** The Kerberos status is compared after `strip()` only, without lower-casing. */
  predicate KerberosActive(entry: LdapEntry) {
    KerberosKey in entry && |entry[KerberosKey]| > 0 && Strip(entry[KerberosKey][0]) == "active"
  }

  /** Not enrolled, but every status field says active: the expirations decide. */
  predicate DecidedByExpirations(entry: LdapEntry) {
    !Enrolled(entry) && InetActive(entry) && KerberosActive(entry)
  }

  /**
   * `_verify_user_ldap_status`: (enrolled or employed, within retention).
   * `today` is the current day number; a missing Kerberos key lands in the
   * outer `KeyError` handler, an empty Kerberos value list raises `IndexError`.
   */
  function VerifyUserLdapStatus(entry: LdapEntry, p: DateParsers, today: int): (r: Result<(bool, bool)>)
    ensures r.Ok? && r.value.0 ==> r.value.1
    ensures Enrolled(entry) ==> r == Ok((true, true))
    ensures !Enrolled(entry) && !InetActive(entry) ==> r == Ok((false, false))
    ensures !Enrolled(entry) && InetActive(entry) && !KerberosActive(entry) ==>
              r == (if KerberosKey in entry && |entry[KerberosKey]| == 0 then Err(IndexError) else Ok((false, false)))
    ensures DecidedByExpirations(entry) ==>
              var emp := Expiration(entry, EmployeeKey, p);
              var stu := Expiration(entry, StudentKey, p);
              var ago := today - RetentionDays;
              (r.Err? <==> emp.Err? || (!OnOrAfter(emp.value, today) && stu.Err?))
              && (r.Ok? && r.value.0 <==> emp.Ok? && OnOrAfter(emp.value, today))
              && (r.Ok? && r.value.1 <==>
                    emp.Ok? && (OnOrAfter(emp.value, today)
                                || (stu.Ok? && (OnOrAfter(stu.value, ago) || OnOrAfter(emp.value, ago)))))
  {
    if StatusField(entry, EnrolledKey) == Some("true") then Ok((true, true))
    else if StatusField(entry, InetStatusKey) != Some("active") then Ok((false, false))
    else if KerberosKey !in entry then Ok((false, false))
    else if |entry[KerberosKey]| == 0 then Err(IndexError)
    else if Strip(entry[KerberosKey][0]) != "active" then Ok((false, false))
    else
      var emp := Expiration(entry, EmployeeKey, p);
      if emp.Err? then Err(emp.error)
      else if OnOrAfter(emp.value, today) then Ok((true, true))
      else
        var stu := Expiration(entry, StudentKey, p);
        if stu.Err? then Err(stu.error)
        else
          var ago := today - RetentionDays;
          Ok((false, OnOrAfter(stu.value, ago) || OnOrAfter(emp.value, ago)))
  }

  /** A status only decays: whatever holds on a later day held on every earlier day too. */
  lemma StatusDecays(entry: LdapEntry, p: DateParsers, earlier: int, later: int)
    requires earlier <= later
    requires VerifyUserLdapStatus(entry, p, later).Ok?
    ensures VerifyUserLdapStatus(entry, p, earlier).Ok?
    ensures VerifyUserLdapStatus(entry, p, later).value.0 ==> VerifyUserLdapStatus(entry, p, earlier).value.0
    ensures VerifyUserLdapStatus(entry, p, later).value.1 ==> VerifyUserLdapStatus(entry, p, earlier).value.1
  {
    if DecidedByExpirations(entry) {
      var emp := Expiration(entry, EmployeeKey, p);
      if emp.Ok? && OnOrAfter(emp.value, later) {
        assert OnOrAfter(emp.value, earlier);
      }
    }
  }

  // ---------------------------------------------------------------------
  // Reading single fields
  // ---------------------------------------------------------------------

  /**
   * `_parse_user_ldap_field`: nothing for missing info, a blank name, a missing
   * key or no values; the value itself for one value; the list for several.
   */
  function ParseUserLdapField(info: Option<LdapEntry>, fieldName: string): (r: LdapValue)
    ensures var name := Strip(fieldName);
            AllValues(r) == (if info.Some? && name != "" && name in info.value then info.value[name] else [])
    ensures r.ValueList? ==> |r.values| > 1
  {
    var name := Strip(fieldName);
    if info.None? || name == "" || name !in info.value then NoValue
    else
      var values := info.value[name];
      if |values| == 0 then NoValue
      else if |values| == 1 then OneValue(values[0])
      else ValueList(values)
  }

  /** Reading the user's entry one field at a time, as the backup-name chain does. */
  function FieldReader(info: Option<LdapEntry>): string -> LdapValue {
    name => ParseUserLdapField(info, name)
  }

  // ---------------------------------------------------------------------
  // Defaults for a new WmuUser
  // ---------------------------------------------------------------------

  /** The directory's mail value, or the shorthand address when it has none. */
  function OfficialEmail(uid: string, mail: LdapValue): (r: LdapValue)
    ensures Present(r)
    ensures Present(mail) ==> r == mail
    ensures !Present(mail) ==> r == OneValue(UserModels.ShorthandEmail(uid))
  {
    if Present(mail) then mail else OneValue(UserModels.ShorthandEmail(uid))
  }

  /** The fields `_create_wmu_user_model` creates the WmuUser with. */
  datatype NewWmuUser = NewWmuUser(
    winno: LdapValue, firstName: LdapValue, middleName: LdapValue, lastName: LdapValue,
    officialEmail: LdapValue)

  function EmptyWinnoMessage(uid: string): string {
    "User " + uid + " got empty winno from Main Campus LDAP."
  }

  /**
   * One name of a new WmuUser: the login User's when it has one, else the
   * directory's `wmuFirstName`/`wmuLastName`, else the backup-name chain.
   */
  function NewUserName(uid: string, info: Option<LdapEntry>, loginName: Option<string>, field: string, firstName: bool): (r: LdapValue)
    ensures uid != "" ==> Present(r)
    ensures loginName.Some? && loginName.value != "" ==> r == OneValue(loginName.value)
  {
    if loginName.Some? && loginName.value != "" then OneValue(loginName.value)
    else
      var fromEntry := ParseUserLdapField(info, field);
      if Present(fromEntry) then fromEntry
      else OneValue(BackupLdapName(uid, FieldReader(info), firstName, !firstName))
  }

  /**
   * `_create_wmu_user_model` up to the `create` call. `winno` is the caller's
   * optional winno; `login` the login User's (first, last) names when that User exists.
   */
  function NewWmuUserFields(uid: string, info: Option<LdapEntry>, winno: Option<string>, login: Option<(string, string)>): (r: Result<NewWmuUser>)
    ensures r.Err? <==> winno.None? && !Present(ParseUserLdapField(info, "wmuBannerID"))
    ensures r.Err? ==> r.error == ValidationError(EmptyWinnoMessage(uid))
    ensures r.Ok? ==> r.value.winno == (if winno.Some? then OneValue(winno.value) else ParseUserLdapField(info, "wmuBannerID"))
    ensures r.Ok? && uid != "" ==> Present(r.value.firstName) && Present(r.value.lastName)
    ensures r.Ok? ==> Present(r.value.officialEmail)
    ensures r.Ok? && login.Some? && login.value.0 != "" ==> r.value.firstName == OneValue(login.value.0)
    ensures r.Ok? && login.Some? && login.value.1 != "" ==> r.value.lastName == OneValue(login.value.1)
  {
    var w := if winno.Some? then OneValue(winno.value) else ParseUserLdapField(info, "wmuBannerID");
    if winno.None? && !Present(w) then Err(ValidationError(EmptyWinnoMessage(uid)))
    else
      var first := NewUserName(uid, info, if login.Some? then Some(login.value.0) else None, "wmuFirstName", true);
      var last := NewUserName(uid, info, if login.Some? then Some(login.value.1) else None, "wmuLastName", false);
      Ok(NewWmuUser(w, first, ParseUserLdapField(info, "wmuMiddleName"), last,
                    OfficialEmail(uid, ParseUserLdapField(info, "mail"))))
  }

  /** Without any name in the login User or the entry, both names fall back on the uid. */
  lemma NamesFallBackToUid(uid: string, info: Option<LdapEntry>, winno: string)
    requires info.None?
    ensures NewWmuUserFields(uid, info, Some(winno), None)
            == Ok(NewWmuUser(OneValue(winno), OneValue(uid), NoValue, OneValue(uid),
                             OneValue(UserModels.ShorthandEmail(uid))))
  {
    BackupNameIsFirstUsable(uid, FieldReader(info), true, false);
    BackupNameIsFirstUsable(uid, FieldReader(info), false, true);
    FirstUsableIsEarliest(FieldReader(info), BackupAttributes(true, false));
    FirstUsableIsEarliest(FieldReader(info), BackupAttributes(false, true));
  }

  /** The message the EmailField's validator gives when `full_clean` runs on the save. */
  const InvalidEmailMessage := "Enter a valid email address."

  /**
   * `_update_user_email_fields`: the official email (directory mail, else the
   * shorthand address) is written to the WmuUser and to the login User when
   * one exists, and (official email, shorthand email) is returned.  A mail
   * attribute with several values is assigned as the whole list, which
   * differs from any stored address; the save's `full_clean` then rejects it
   * as an email address, so the call raises before anything is stored.
   */
  method UpdateUserEmailFields(uid: string, info: Option<LdapEntry>, wmu: UserModels.WmuUser, login: UserModels.LoginUser?)
    returns (r: Result<(string, string)>)
    modifies wmu`officialEmail, login
    ensures var mail := OfficialEmail(uid, ParseUserLdapField(info, "mail"));
            mail.ValueList? ==>
              r == Err(ValidationError(InvalidEmailMessage))
              && wmu.officialEmail == old(wmu.officialEmail)
              && (login != null ==> login.Rec() == old(login.Rec()))
    ensures var mail := OfficialEmail(uid, ParseUserLdapField(info, "mail"));
            mail.OneValue? ==>
              r == Ok((mail.text, UserModels.ShorthandEmail(uid)))
              && wmu.officialEmail == Some(mail.text)
              && (login != null ==> login.Rec() == old(login.Rec()).(email := mail.text))
    ensures !Present(ParseUserLdapField(info, "mail")) ==>
              r == Ok((UserModels.ShorthandEmail(uid), UserModels.ShorthandEmail(uid)))
  {
    var shorthand := UserModels.ShorthandEmail(uid);
    var mail := OfficialEmail(uid, ParseUserLdapField(info, "mail"));
    match mail {
      case ValueList(_) =>
        return Err(ValidationError(InvalidEmailMessage));
      case OneValue(official) =>
        StoreOfficialEmail(official, wmu, login);
        r := Ok((official, shorthand));
      case NoValue =>
        assert false;
    }
  }

  /** The saves of one address: the WmuUser's official email and the login User's email, when they differ. */
  method StoreOfficialEmail(official: string, wmu: UserModels.WmuUser, login: UserModels.LoginUser?)
    modifies wmu`officialEmail, login
    ensures wmu.officialEmail == Some(official)
    ensures login != null ==> login.Rec() == old(login.Rec()).(email := official)
  {
    if wmu.officialEmail != Some(official) {
      wmu.officialEmail := Some(official);
    }
    if login != null && login.email != official {
      login.email := official;
    }
  }
}
