/**
 * The older main-campus directory backend kept under `settings/`: the status
 * decision without the Kerberos check and with timestamps only, and
 * `verify_user_ldap_status`, which may copy the decision onto the login User
 * and the WmuUser.
 */
module SettingsWmuBackend {
  import opened Wrappers
  import opened Text
  import opened LdapValues
  import opened WmuBackend
  import UserModels

  /** The retention period after an expiration, in seconds. */
  const RetentionSeconds := 365 * 86400

  /** An expiration field read with `%Y%m%d%H%M%S%z` as is, without stripping; `stamp` gives seconds. */
  function StampExpiration(entry: LdapEntry, key: string, stamp: string -> Option<int>): (r: Result<Option<int>>)
    ensures r == Ok(None) <==> !(key in entry && |entry[key]| > 0)
    ensures r.Err? ==> r.error == ValueError(DateFormatMessage)
  {
    if key in entry && |entry[key]| > 0 then
      var d := stamp(entry[key][0]);
      if d.Some? then Ok(d) else Err(ValueError(DateFormatMessage))
    else Ok(None)
  }

  /** `_verify_user_ldap_status` of this backend; `now` is the current time in seconds. */
  function SettingsLdapStatus(entry: LdapEntry, stamp: string -> Option<int>, now: int): (r: Result<(bool, bool)>)
    ensures r.Ok? && r.value.0 ==> r.value.1
    ensures Enrolled(entry) ==> r == Ok((true, true))
    ensures !Enrolled(entry) && !InetActive(entry) ==> r == Ok((false, false))
    ensures !Enrolled(entry) && InetActive(entry) ==>
              var emp := StampExpiration(entry, EmployeeKey, stamp);
              var stu := StampExpiration(entry, StudentKey, stamp);
              var ago := now - RetentionSeconds;
              (r.Err? <==> emp.Err? || (!OnOrAfter(emp.value, now) && stu.Err?))
              && (r.Ok? && r.value.0 <==> emp.Ok? && OnOrAfter(emp.value, now))
              && (r.Ok? && r.value.1 <==>
                    emp.Ok? && (OnOrAfter(emp.value, now)
                                || (stu.Ok? && (OnOrAfter(stu.value, ago) || OnOrAfter(emp.value, ago)))))
  {
    if StatusField(entry, EnrolledKey) == Some("true") then Ok((true, true))
    else if StatusField(entry, InetStatusKey) != Some("active") then Ok((false, false))
    else
      var emp := StampExpiration(entry, EmployeeKey, stamp);
      if emp.Err? then Err(emp.error)
      else if OnOrAfter(emp.value, now) then Ok((true, true))
      else
        var stu := StampExpiration(entry, StudentKey, stamp);
        if stu.Err? then Err(stu.error)
        else
          var ago := now - RetentionSeconds;
          Ok((false, OnOrAfter(stu.value, ago) || OnOrAfter(emp.value, ago)))
  }

  const SecondsPerDay := 86400

  /** A day number as the timestamp of that day's midnight. */
  function AtMidnight(d: Option<int>): Option<int> {
    if d.Some? then Some(d.value * SecondsPerDay) else None
  }

  /**
   * With the Kerberos status active, both expirations full timestamps falling
   * at midnight, and the clock at midnight of `today`, the workspace decision
   * agrees with this one.
   */
  lemma StatusVersionsAgree(entry: LdapEntry, p: DateParsers, stamp: string -> Option<int>, today: int)
    requires KerberosActive(entry)
    requires forall key :: key in entry && |entry[key]| > 0 && (key == EmployeeKey || key == StudentKey) ==>
               |entry[key][0]| != 8 && Strip(entry[key][0]) == entry[key][0]
    requires forall t :: stamp(t) == AtMidnight(p.stamp(t))
    ensures WmuBackend.VerifyUserLdapStatus(entry, p, today) == SettingsLdapStatus(entry, stamp, today * SecondsPerDay)
  {
    if !Enrolled(entry) && InetActive(entry) {
      var emp, empS := Expiration(entry, EmployeeKey, p), StampExpiration(entry, EmployeeKey, stamp);
      ExpirationAtMidnight(entry, EmployeeKey, p, stamp);
      if emp.Ok? {
        MidnightOrder(emp.value, today);
        if !OnOrAfter(emp.value, today) {
          var stu, stuS := Expiration(entry, StudentKey, p), StampExpiration(entry, StudentKey, stamp);
          ExpirationAtMidnight(entry, StudentKey, p, stamp);
          MidnightOrder(emp.value, today - RetentionDays);
          if stu.Ok? {
            MidnightOrder(stu.value, today - RetentionDays);
          }
        }
      }
    }
  }

  /** One expiration field read by both versions: the same day, as a day number and as its midnight. */
  lemma ExpirationAtMidnight(entry: LdapEntry, key: string, p: DateParsers, stamp: string -> Option<int>)
    requires key in entry && |entry[key]| > 0 ==> |entry[key][0]| != 8 && Strip(entry[key][0]) == entry[key][0]
    requires forall t :: stamp(t) == AtMidnight(p.stamp(t))
    ensures StampExpiration(entry, key, stamp).Ok? == Expiration(entry, key, p).Ok?
    ensures Expiration(entry, key, p).Ok? ==>
              StampExpiration(entry, key, stamp).value == AtMidnight(Expiration(entry, key, p).value)
  {
  }

  /** Comparing midnights is comparing days. */
  lemma MidnightOrder(d: Option<int>, day: int)
    ensures OnOrAfter(d, day) <==> OnOrAfter(AtMidnight(d), day * SecondsPerDay)
    ensures day * SecondsPerDay - RetentionSeconds == (day - RetentionDays) * SecondsPerDay
  {
  }

  const BronconetFieldMessage := "Cannot resolve keyword 'bronconet' into field."

  /**
   * `verify_user_ldap_status` as written: `info` is the directory's answer
   * and `hasLoginUser` whether a login User has the uid as its username.
   * Setting the active fields first gets that login User, which raises
   * DoesNotExist when there is none; it then looks the WmuUser up by
   * `bronconet`, which is no field of WmuUser (its field is `bronco_net`),
   * so that path always raises.  The writes after the lookups go to
   * `active`, which neither model has (both fields are `is_active`), so even
   * a working lookup would deactivate nobody.
   */
  function VerifyUserLdapStatusAsWritten(info: Option<LdapEntry>, setActive: bool, hasLoginUser: bool,
                                         stamp: string -> Option<int>, now: int): (r: Result<Option<(bool, bool)>>)
    ensures setActive && (info.None? || SettingsLdapStatus(info.value, stamp, now).Ok?) ==>
              r == Err(if hasLoginUser then FieldError(BronconetFieldMessage) else DoesNotExist)
    ensures !setActive ==> r == (if info.None? then Ok(None)
                                 else match SettingsLdapStatus(info.value, stamp, now)
                                      case Ok(s) => Ok(Some(s))
                                      case Err(e) => Err(e))
    ensures setActive ==> r.Err?
  {
    if info.Some? then
      var status := SettingsLdapStatus(info.value, stamp, now);
      if status.Err? then Err(status.error)
      else if setActive then SetActiveLookups(hasLoginUser)
      else Ok(Some(status.value))
    else if setActive then SetActiveLookups(hasLoginUser)
    else Ok(None)
  }

  /** The two `get`s before the active fields are set: the login User by username, then the WmuUser by `bronconet`. */
  function SetActiveLookups(hasLoginUser: bool): Result<Option<(bool, bool)>> {
    if !hasLoginUser then Err(DoesNotExist) else Err(FieldError(BronconetFieldMessage))
  }

  /** A user the directory no longer knows is never marked inactive: the call raises instead. */
  lemma MissingUserNeverDeactivated(stamp: string -> Option<int>, now: int, hasLoginUser: bool)
    ensures VerifyUserLdapStatusAsWritten(None, true, hasLoginUser, stamp, now).Err?
    ensures hasLoginUser ==> VerifyUserLdapStatusAsWritten(None, true, hasLoginUser, stamp, now) == Err(FieldError(BronconetFieldMessage))
    ensures !hasLoginUser ==> VerifyUserLdapStatusAsWritten(None, true, hasLoginUser, stamp, now) == Err(DoesNotExist)
  {
  }

  /**
   * `verify_user_ldap_status` with the lookup and the field names it evidently
   * means: the status goes to the login User's and the WmuUser's `is_active`,
   * and a user the directory does not return is made inactive in both.
   */
  method VerifyUserLdapStatus(info: Option<LdapEntry>, setActive: bool, login: UserModels.LoginUser, wmu: UserModels.WmuUser,
                              stamp: string -> Option<int>, now: int)
    returns (r: Result<Option<(bool, bool)>>)
    modifies login`isActive, wmu`isActive
    ensures info.None? ==> r == Ok(None)
    ensures info.Some? ==> r == (match SettingsLdapStatus(info.value, stamp, now)
                                 case Ok(s) => Ok(Some(s))
                                 case Err(e) => Err(e))
    ensures setActive && r.Ok? ==>
              login.isActive == (r.value.Some? && r.value.value.0)
              && wmu.isActive == (r.value.Some? && r.value.value.1)
    ensures !setActive || r.Err? ==> login.isActive == old(login.isActive) && wmu.isActive == old(wmu.isActive)
    ensures setActive && r.Ok? ==> (login.isActive ==> wmu.isActive)
  {
    if info.Some? {
      var status := SettingsLdapStatus(info.value, stamp, now);
      if status.Err? {
        return Err(status.error);
      }
      if setActive {
        login.isActive := status.value.0;
        wmu.isActive := status.value.1;
      }
      r := Ok(Some(status.value));
    } else {
      if setActive {
        login.isActive := false;
        wmu.isActive := false;
      }
      r := Ok(None);
    }
  }
}
