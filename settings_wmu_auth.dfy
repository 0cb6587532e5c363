/**
 * The oldest main-campus backend, `settings/ldap_backends/wmu_auth.py`: a
 * missing WmuUser is created from single-attribute directory reads, and the
 * user's Profile gets the directory's home phone.
 */
module SettingsWmuAuth {
  import opened Wrappers
  import opened LdapValues
  import opened WmuBackend
  import UserModels

  /**
   * What the update changes: the WmuUser created, if any, whether that new
   * user was given the Unknown major, and the phone the Profile is given, if any.
   */
  datatype WmuUserUpdate = WmuUserUpdate(created: Option<NewWmuUser>, unknownMajorLinked: bool, phone: Option<LdapValue>)

  function ProfileMissingMessage(uid: string): string {
    "Could not find profile for user " + uid + "."
  }

  /** What Django says when `create` is handed a many-to-many field as a keyword. */
  const DirectManyToManyMessage := "Direct assignment to the forward side of a many-to-many set is prohibited. Use major.set() instead."

  /** A name read from the directory, or the backup-name chain when the read is empty. */
  function ReadName(uid: string, read: string -> LdapValue, field: string, firstName: bool): (r: LdapValue)
    ensures uid != "" ==> Present(r)
    ensures Present(read(field)) ==> r == read(field)
  {
    if Present(read(field)) then read(field)
    else OneValue(BackupLdapName(uid, read, firstName, !firstName))
  }

  /** The winno a new WmuUser gets: the caller's, else the directory's `wmuBannerID`. */
  function NewWinno(read: string -> LdapValue, winno: Option<string>): LdapValue {
    if winno.Some? then OneValue(winno.value) else read("wmuBannerID")
  }

  /** The fields the new WmuUser is created with. */
  function NewUserFields(uid: string, read: string -> LdapValue, winno: Option<string>): NewWmuUser {
    NewWmuUser(
      NewWinno(read, winno),
      ReadName(uid, read, "wmuFirstName", true),
      read("wmuMiddleName"),
      ReadName(uid, read, "wmuLastName", false),
      OfficialEmail(uid, read("mail")))
  }

  /** The Profile step after the WmuUser exists: ValueError without a Profile, else the home phone when one is read. */
  function UpdateProfile(uid: string, read: string -> LdapValue, hasProfile: bool, created: Option<NewWmuUser>): Result<WmuUserUpdate> {
    if !hasProfile then Err(ValueError(ProfileMissingMessage(uid)))
    else
      var phone := read("homePhone");
      Ok(WmuUserUpdate(created, created.Some?, if Present(phone) then Some(phone) else None))
  }

  /**
   * `update_or_create_wmu_user_model` as written: `stored` says a WmuUser
   * with this BroncoNet is stored, `read` reads one directory attribute,
   * `winno` is the caller's optional winno, `hasUnknownMajor` whether the
   * Major with slug 'unk' is stored and `hasProfile` whether the user has a
   * Profile.  A new user needs the 'unk' Major (DoesNotExist otherwise) and
   * is then created with `major=` that Major; `major` is a many-to-many
   * field with its own relation model, which `create` refuses with TypeError.
   */
  function UpdateOrCreateAsWritten(uid: string, stored: bool, read: string -> LdapValue, winno: Option<string>,
                                   hasUnknownMajor: bool, hasProfile: bool): Result<WmuUserUpdate> {
    if stored then UpdateProfile(uid, read, hasProfile, None)
    else if winno.None? && !Present(NewWinno(read, winno)) then Err(ValidationError(EmptyWinnoMessage(uid)))
    else if !hasUnknownMajor then Err(DoesNotExist)
    else Err(TypeError(DirectManyToManyMessage))
  }

  /**
   * No new WmuUser is ever created as written: a missing winno raises
   * ValidationError, and past that check the 'unk' lookup or the `create`
   * raises.  A stored user goes on to the Profile step as intended.
   */
  lemma NewUserNeverCreated(uid: string, stored: bool, read: string -> LdapValue, winno: Option<string>,
                            hasUnknownMajor: bool, hasProfile: bool)
    ensures var r := UpdateOrCreateAsWritten(uid, stored, read, winno, hasUnknownMajor, hasProfile);
      && (!stored ==> r.Err?)
      && (!stored && (winno.Some? || Present(read("wmuBannerID"))) ==>
            r.error == (if hasUnknownMajor then TypeError(DirectManyToManyMessage) else DoesNotExist))
      && (stored ==> r == UpdateOrCreateWmuUserModel(uid, stored, read, winno, hasUnknownMajor, hasProfile))
  {
  }

  /**
   * `update_or_create_wmu_user_model` as evidently intended: a new WmuUser
   * is created with the directory's fields and then given the Unknown major
   * through the relation model, instead of through `create`.
   */
  function UpdateOrCreateWmuUserModel(uid: string, stored: bool, read: string -> LdapValue, winno: Option<string>,
                                      hasUnknownMajor: bool, hasProfile: bool): (r: Result<WmuUserUpdate>)
    ensures r.Err? <==>
              (!stored && winno.None? && !Present(read("wmuBannerID")))
              || (!stored && !hasUnknownMajor)
              || !hasProfile
    ensures !stored && winno.None? && !Present(read("wmuBannerID")) ==> r == Err(ValidationError(EmptyWinnoMessage(uid)))
    ensures !stored && (winno.Some? || Present(read("wmuBannerID"))) && !hasUnknownMajor ==> r == Err(DoesNotExist)
    ensures r.Err? && r.error != ValidationError(EmptyWinnoMessage(uid)) && r.error != DoesNotExist ==>
              r.error == ValueError(ProfileMissingMessage(uid))
    ensures r.Ok? ==> (r.value.created.Some? <==> !stored) && (r.value.unknownMajorLinked <==> !stored)
    ensures r.Ok? && r.value.created.Some? ==>
              var u := r.value.created.value;
              u.winno == (if winno.Some? then OneValue(winno.value) else read("wmuBannerID"))
              && (uid != "" ==> Present(u.firstName) && Present(u.lastName))
              && u.officialEmail == OfficialEmail(uid, read("mail"))
    ensures r.Ok? ==> (r.value.phone.Some? <==> Present(read("homePhone")))
  {
    if stored then UpdateProfile(uid, read, hasProfile, None)
    else if winno.None? && !Present(NewWinno(read, winno)) then Err(ValidationError(EmptyWinnoMessage(uid)))
    else if !hasUnknownMajor then Err(DoesNotExist)
    else UpdateProfile(uid, read, hasProfile, Some(NewUserFields(uid, read, winno)))
  }

  /** When the directory has nothing for the user, a new WmuUser is named after the uid and mailed at the shorthand address. */
  lemma NamesFromEmptyDirectory(uid: string, read: string -> LdapValue, winno: string)
    requires forall a :: read(a) == NoValue
    ensures UpdateOrCreateWmuUserModel(uid, false, read, Some(winno), true, true)
            == Ok(WmuUserUpdate(Some(NewWmuUser(OneValue(winno), OneValue(uid), NoValue, OneValue(uid),
                                                OneValue(UserModels.ShorthandEmail(uid)))), true, None))
  {
    var middle, mail, phone := read("wmuMiddleName"), read("mail"), read("homePhone");
    assert middle == NoValue && mail == NoValue && phone == NoValue;
    assert OfficialEmail(uid, mail) == OneValue(UserModels.ShorthandEmail(uid));
    EmptyDirectoryName(uid, read, "wmuFirstName", true);
    EmptyDirectoryName(uid, read, "wmuLastName", false);
  }

  /** With nothing in the directory a name field is read as the uid. */
  lemma EmptyDirectoryName(uid: string, read: string -> LdapValue, field: string, firstName: bool)
    requires forall a :: read(a) == NoValue
    ensures ReadName(uid, read, field, firstName) == OneValue(uid)
  {
    assert read(field) == NoValue;
    EmptyDirectoryBackupName(uid, read, firstName, !firstName);
  }

  /** With no attribute readable every try of the backup chain fails, so the name is the uid. */
  lemma EmptyDirectoryBackupName(uid: string, read: string -> LdapValue, firstName: bool, lastName: bool)
    requires forall a :: read(a) == NoValue
    ensures BackupLdapName(uid, read, firstName, lastName) == uid
  {
    BackupNameIsFirstUsable(uid, read, firstName, lastName);
    NothingUsable(read, BackupAttributes(firstName, lastName));
  }

  /** No attribute gives a usable name when nothing can be read. */
  lemma {:induction false} NothingUsable(read: string -> LdapValue, keys: seq<string>)
    requires forall a :: read(a) == NoValue
    ensures FirstUsable(read, keys) == None
  {
    if keys != [] {
      NothingUsable(read, keys[1..]);
      assert FormatBackupName(read(keys[0])) == None;
    }
  }
}
