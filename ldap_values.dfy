/**
 * Directory values as the authentication backends read them: a user's entry,
 * the normalised value of one attribute, and the "backup name" chain that
 * fills a missing first or last name from other name attributes.
 */
module LdapValues {
  import opened Wrappers
  import opened Text

  /** A directory entry: attribute name to its list of values. */
  type LdapEntry = map<string, seq<string>>

  /** What reading one attribute gives back: nothing, a single text, or several values. */
  datatype LdapValue = NoValue | OneValue(text: string) | ValueList(values: seq<string>)

  /** Every value a read stands for, in order. */
  function AllValues(v: LdapValue): seq<string> {
    match v
    case NoValue => []
    case OneValue(t) => [t]
    case ValueList(vs) => vs
  }

  /** The backends' `value is None or value == ''` test, negated. */
  predicate Present(v: LdapValue) {
    v != NoValue && v != OneValue("")
  }

  /** One attribute of a search response, as the directory library hands it over. */
  datatype RawAttribute = RawList(items: seq<string>) | RawText(text: string)

  const AttributeTypeMessage := "Attribute must be of type string."
  const AttributeEmptyMessage := "Attribute cannot be an empty string."

  /**
   * `get_ldap_user_attribute`: `attribute` is the requested name (`None` for
   * anything that is not a string) and `response` the search result for it
   * (`None` when the search found nothing).
   */
  function GetLdapUserAttribute(attribute: Option<string>, response: Option<map<string, RawAttribute>>): (r: Result<LdapValue>)
    ensures attribute.None? ==> r == Err(ValidationError(AttributeTypeMessage))
    ensures attribute.Some? && Strip(attribute.value) == "" ==> r == Err(ValidationError(AttributeEmptyMessage))
    ensures r.Err? <==>
              attribute.None? || Strip(attribute.value) == ""
              || (response.Some? && Strip(attribute.value) !in response.value)
    ensures r.Ok? && response.None? ==> r.value == NoValue
    ensures r.Ok? && response.Some? ==>
              var raw := response.value[Strip(attribute.value)];
              match raw
              case RawText(t) => r.value == OneValue(Strip(t))
              case RawList(xs) =>
                (|xs| == 0 ==> r.value == OneValue(""))
                && (|xs| == 1 ==> r.value == OneValue(Strip(xs[0])))
                && (|xs| > 1 ==> r.value == ValueList(xs))
  {
    if attribute.None? then Err(ValidationError(AttributeTypeMessage))
    else
      var name := Strip(attribute.value);
      if name == "" then Err(ValidationError(AttributeEmptyMessage))
      else if response.None? then Ok(NoValue)
      else if name !in response.value then Err(KeyError(name))
      else match response.value[name]
        case RawList(xs) =>
          if |xs| == 1 then Ok(OneValue(Strip(xs[0])))
          else if |xs| > 1 then Ok(ValueList(xs))
          else Ok(OneValue(""))
        case RawText(t) => Ok(OneValue(Strip(t)))
  }

  /** A successful read never leaves surrounding whitespace on a single value, and a list always has several values. */
  lemma AttributeValueNormalised(attribute: Option<string>, response: Option<map<string, RawAttribute>>)
    requires GetLdapUserAttribute(attribute, response).Ok?
    ensures var v := GetLdapUserAttribute(attribute, response).value;
            (v.OneValue? ==> Strip(v.text) == v.text) && (v.ValueList? ==> |v.values| > 1)
  {
    var v := GetLdapUserAttribute(attribute, response).value;
    if v.OneValue? && response.Some? {
      match response.value[Strip(attribute.value)]
      case RawText(t) => StripIdempotent(t);
      case RawList(xs) => if |xs| == 1 { StripIdempotent(xs[0]); }
    }
  }

  /** `_format_backup_name`: the first value of a list, a non-empty text stripped, anything else `None`. */
  function FormatBackupName(v: LdapValue): (r: Option<string>)
    ensures r.Some? <==>
              (v.OneValue? && v.text != "") || (v.ValueList? && |v.values| > 0 && v.values[0] != "")
    ensures r.Some? && v.OneValue? ==> r.value == Strip(v.text)
    ensures r.Some? && v.ValueList? ==> r.value == Strip(v.values[0])
  {
    match v
    case NoValue => None
    case OneValue(t) => if |t| > 0 then Some(Strip(t)) else None
    case ValueList(vs) => if |vs| > 0 && |vs[0]| > 0 then Some(Strip(vs[0])) else None
  }

  /** A formatted name carries no surrounding whitespace. */
  lemma FormattedNameStripped(v: LdapValue)
    requires FormatBackupName(v).Some?
    ensures Strip(FormatBackupName(v).value) == FormatBackupName(v).value
  {
    match v
    case OneValue(t) => StripIdempotent(t);
    case ValueList(vs) => StripIdempotent(vs[0]);
  }

  /** What the chain accepts as a name: present and not empty. */
  predicate Usable(n: Option<string>) {
    n.Some? && n.value != ""
  }

  /**
   * `get_backup_ldap_name`: `read(attribute)` is the value read for one name
   * attribute. Tries givenName (first names) or sn (last names), then
   * displayName, gecos and cn, and falls back on the uid.
   */
  function BackupLdapName(uid: string, read: string -> LdapValue, firstName: bool, lastName: bool): (r: string)
    ensures uid != "" ==> r != ""
  {
    var a := if firstName then FormatBackupName(read("givenName"))
             else if lastName then FormatBackupName(read("sn"))
             else None;
    var b := if Usable(a) then a else FormatBackupName(read("displayName"));
    var c := if Usable(b) then b else FormatBackupName(read("gecos"));
    var d := if Usable(c) then c else FormatBackupName(read("cn"));
    if Usable(d) then d.value else uid
  }

  /** The attributes the chain consults, in order. */
  function BackupAttributes(firstName: bool, lastName: bool): seq<string> {
    (if firstName then ["givenName"] else if lastName then ["sn"] else [])
    + ["displayName", "gecos", "cn"]
  }

  /** The formatted value of the first attribute in `keys` that gives a usable name. */
  function FirstUsable(read: string -> LdapValue, keys: seq<string>): (r: Option<string>)
    ensures r.Some? ==> r.value != ""
  {
    if keys == [] then None
    else
      var n := FormatBackupName(read(keys[0]));
      if Usable(n) then n else FirstUsable(read, keys[1..])
  }

  /** `FirstUsable` finds the earliest attribute whose formatted value is usable, and none when there is none. */
  lemma {:induction false} FirstUsableIsEarliest(read: string -> LdapValue, keys: seq<string>)
    ensures FirstUsable(read, keys).None? <==> forall i :: 0 <= i < |keys| ==> !Usable(FormatBackupName(read(keys[i])))
    ensures FirstUsable(read, keys).Some? ==>
              exists i :: 0 <= i < |keys| && FirstUsable(read, keys) == FormatBackupName(read(keys[i]))
                          && forall j :: 0 <= j < i ==> !Usable(FormatBackupName(read(keys[j])))
  {
    if keys != [] && !Usable(FormatBackupName(read(keys[0]))) {
      var rest := keys[1..];
      FirstUsableIsEarliest(read, rest);
      assert forall i :: 1 <= i < |keys| ==> keys[i] == rest[i - 1];
      if FirstUsable(read, rest).Some? {
        var i :| 0 <= i < |rest| && FirstUsable(read, rest) == FormatBackupName(read(rest[i]))
                 && forall j :: 0 <= j < i ==> !Usable(FormatBackupName(read(rest[j])));
        assert forall j :: 0 <= j < i + 1 ==> !Usable(FormatBackupName(read(keys[j])));
        assert FirstUsable(read, keys) == FormatBackupName(read(keys[i + 1]));
      }
    }
  }

  /** The chain is "the first usable name among the attributes, else the uid". */
  lemma BackupNameIsFirstUsable(uid: string, read: string -> LdapValue, firstName: bool, lastName: bool)
    ensures BackupLdapName(uid, read, firstName, lastName)
            == (match FirstUsable(read, BackupAttributes(firstName, lastName))
                case Some(n) => n
                case None => uid)
  {
    if firstName || lastName {
      NamedFirstAttempt(uid, read, firstName, lastName);
    } else {
      NoFirstAttempt(uid, read);
    }
  }

  /** For a first or last name, givenName or sn is tried before the common three. */
  lemma NamedFirstAttempt(uid: string, read: string -> LdapValue, firstName: bool, lastName: bool)
    requires firstName || lastName
    ensures BackupLdapName(uid, read, firstName, lastName)
            == (match FirstUsable(read, BackupAttributes(firstName, lastName))
                case Some(n) => n
                case None => uid)
  {
    var k := if firstName then "givenName" else "sn";
    assert BackupAttributes(firstName, lastName) == [k, "displayName", "gecos", "cn"];
    ThreeKeys(read, "displayName", "gecos", "cn");
    FourKeys(read, k, "displayName", "gecos", "cn");
  }

  /** Otherwise only displayName, gecos and cn are tried. */
  lemma NoFirstAttempt(uid: string, read: string -> LdapValue)
    ensures BackupLdapName(uid, read, false, false)
            == (match FirstUsable(read, BackupAttributes(false, false))
                case Some(n) => n
                case None => uid)
  {
    assert BackupAttributes(false, false) == ["displayName", "gecos", "cn"];
    ThreeKeys(read, "displayName", "gecos", "cn");
  }

  /** Over three attributes, the first usable name is the one a chain of three tries finds. */
  lemma ThreeKeys(read: string -> LdapValue, k0: string, k1: string, k2: string)
    ensures var n0, n1, n2 := FormatBackupName(read(k0)), FormatBackupName(read(k1)), FormatBackupName(read(k2));
            FirstUsable(read, [k0, k1, k2])
            == (if Usable(n0) then n0 else if Usable(n1) then n1 else if Usable(n2) then n2 else None)
  {
    assert [k0, k1, k2][1..] == [k1, k2];
    assert [k1, k2][1..] == [k2];
    assert [k2][1..] == [];
    var n1, n2 := FormatBackupName(read(k1)), FormatBackupName(read(k2));
    assert FirstUsable(read, [k2]) == (if Usable(n2) then n2 else None);
    assert FirstUsable(read, [k1, k2]) == (if Usable(n1) then n1 else FirstUsable(read, [k2]));
  }

  /** One attribute in front is tried first. */
  lemma FourKeys(read: string -> LdapValue, k: string, k0: string, k1: string, k2: string)
    ensures var n := FormatBackupName(read(k));
            FirstUsable(read, [k, k0, k1, k2]) == (if Usable(n) then n else FirstUsable(read, [k0, k1, k2]))
  {
    assert [k, k0, k1, k2][1..] == [k0, k1, k2];
  }
}
