/**
 * The abstract directory backend every login backend extends: which login
 * names are accepted and how they become a lookup key and a directory uid,
 * who may log in, the permission sets cached on the user object, and the
 * attribute argument of a whole-entry directory read.
 */
module BaseAuth {
  import opened Wrappers
  import opened Text

  // ---------------------------------------------------------------------
  // Login names
  // ---------------------------------------------------------------------

  predicate IsAlnum(c: char) {
    'a' <= c <= 'z' || 'A' <= c <= 'Z' || '0' <= c <= '9'
  }

  /** The length of the longest run of ASCII letters and digits at the start of `s`. */
  function AlnumPrefix(s: string): (k: nat)
    ensures k <= |s|
    ensures forall j :: 0 <= j < k ==> IsAlnum(s[j])
    ensures k < |s| ==> !IsAlnum(s[k])
  {
    if s != [] && IsAlnum(s[0]) then 1 + AlnumPrefix(s[1..]) else 0
  }

  /** Where `$` matches: at the end, or just before a final newline. */
  predicate AtEnd(s: string, i: nat) {
    i == |s| || (i == |s| - 1 && s[i] == '\n')
  }

  /** `@wmich.edu$` matches at `i`; the unescaped '.' is any character but a newline. */
  predicate DomainAt(s: string, i: nat) {
    i + 10 <= |s| && s[i] == '@' && s[i + 1..i + 6] == "wmich" && s[i + 6] != '\n'
    && s[i + 7..i + 10] == "edu" && AtEnd(s, i + 10)
  }

  /** `re.match(r'([a-zA-Z0-9]+)(($)|(@wmich.edu$))', s)`, with the domain the university backends format in. */
  predicate MatchesUsername(s: string) {
    var k := AlnumPrefix(s);
    k >= 1 && (AtEnd(s, k) || DomainAt(s, k))
  }

  /** The pattern read literally: some non-empty alphanumeric prefix followed by an end or by the domain. */
  predicate PatternAccepts(s: string) {
    exists k :: 1 <= k <= |s| && (forall j :: 0 <= j < k ==> IsAlnum(s[j])) && (AtEnd(s, k) || DomainAt(s, k))
  }

  /** Backtracking never matters: the only prefix that can match is the longest one. */
  lemma MatchesUsernameIsPattern(s: string)
    ensures MatchesUsername(s) <==> PatternAccepts(s)
  {
    var m := AlnumPrefix(s);
    if MatchesUsername(s) {
      assert 1 <= m <= |s| && (forall j :: 0 <= j < m ==> IsAlnum(s[j])) && (AtEnd(s, m) || DomainAt(s, m));
    }
    if PatternAccepts(s) {
      var k :| 1 <= k <= |s| && (forall j :: 0 <= j < k ==> IsAlnum(s[j])) && (AtEnd(s, k) || DomainAt(s, k));
      if k < m {
        assert IsAlnum(s[k]);
      }
    }
  }

  /** The keyword the login User is looked up by. */
  datatype UserLookup = ByEmail(email: string) | ByUsername(username: string)

  /**
   * `_parse_username`: `validEmail` is Django's `validate_email` (true when it
   * does not raise). A name outside the pattern gives `None`.
   */
  function ParseUsername(username: string, validEmail: string -> bool): (r: Option<UserLookup>)
    ensures r.Some? <==> MatchesUsername(username)
    ensures r.Some? && r.value.ByEmail? ==> '@' in r.value.email && validEmail(r.value.email)
  {
    if !MatchesUsername(username) then None
    else
      var u := Lower(Strip(username));
      if '@' in u && validEmail(u) then Some(ByEmail(u)) else Some(ByUsername(u))
  }

  /** `_validate_ldap_user`: the directory uid is the mailbox of an email, the username itself otherwise. */
  function LdapUid(l: UserLookup): (r: string)
    ensures l.ByEmail? ==> '@' !in r
    ensures l.ByUsername? ==> r == l.username
  {
    match l
    case ByEmail(e) => Split(e, '@')[0]
    case ByUsername(u) => u
  }

  /** Where the text `_parse_username` keeps ends: after the name, or after the domain. */
  function LoginEnd(s: string): nat {
    var k := AlnumPrefix(s);
    if AtEnd(s, k) then k else k + 10
  }

  lemma DomainEnd(s: string, k: nat)
    requires DomainAt(s, k)
    ensures s[k] == '@' && s[k + 9] == 'u'
  {
    assert s[k + 7..k + 10][2] == 'u';
  }

  /** Text that ends at `e`, where `$` can match, with no whitespace at either end of `s[..e]`. */
  lemma StripAtEnd(s: string, e: nat)
    requires 1 <= e <= |s| && AtEnd(s, e) && !IsSpace(s[0]) && !IsSpace(s[e - 1])
    ensures Strip(s) == s[..e]
  {
    var t := s[..e];
    assert t != [] && !IsSpace(t[0]) && !IsSpace(t[|t| - 1]) by {
      assert t[0] == s[0] && t[|t| - 1] == s[e - 1];
    }
    if e == |s| {
      assert s == t;
      StripNewline(t);
    } else {
      assert s == t + "\n" by {
        assert s[e] == '\n';
      }
      StripNewline(t);
    }
  }

  /** Stripping an accepted name only drops the final newline `$` lets through. */
  lemma StrippedLogin(s: string)
    requires MatchesUsername(s)
    ensures 1 <= LoginEnd(s) <= |s| && Strip(s) == s[..LoginEnd(s)]
  {
    var k := AlnumPrefix(s);
    if !AtEnd(s, k) {
      DomainEnd(s, k);
    }
    StripAtEnd(s, LoginEnd(s));
  }

  lemma SliceAround(s: string, k: nat, e: nat)
    requires k < e <= |s|
    ensures s[..e] == s[..k] + [s[k]] + s[k + 1..e]
  {
    assert forall i :: 0 <= i < e ==> s[..e][i] == (s[..k] + [s[k]] + s[k + 1..e])[i];
  }

  /** Lower-casing letters and digits never produces an '@'. */
  lemma NoAtInLowerAlnum(a: string)
    requires forall j :: 0 <= j < |a| ==> IsAlnum(a[j])
    ensures '@' !in Lower(a)
  {
    assert forall i :: 0 <= i < |a| ==> Lower(a)[i] != '@';
  }

  /** A bare name (optionally followed by a newline) is looked up as the lower-cased name. */
  lemma BareNameLogin(s: string, validEmail: string -> bool)
    requires MatchesUsername(s) && AtEnd(s, AlnumPrefix(s))
    ensures ParseUsername(s, validEmail) == Some(ByUsername(Lower(s[..AlnumPrefix(s)])))
    ensures LdapUid(ParseUsername(s, validEmail).value) == Lower(s[..AlnumPrefix(s)])
  {
    StrippedLogin(s);
    NoAtInLowerAlnum(s[..AlnumPrefix(s)]);
  }

  /**
   * A name with the domain is looked up by email when `validate_email` accepts
   * it, and its directory uid is then the lower-cased name before the '@';
   * otherwise the whole lower-cased text is both username and uid.
   */
  lemma DomainLogin(s: string, validEmail: string -> bool)
    requires MatchesUsername(s) && DomainAt(s, AlnumPrefix(s))
    ensures var k := AlnumPrefix(s);
            var u := Lower(s[..k + 10]);
            ParseUsername(s, validEmail) == Some(if validEmail(u) then ByEmail(u) else ByUsername(u))
            && LdapUid(ParseUsername(s, validEmail).value) == (if validEmail(u) then Lower(s[..k]) else u)
  {
    DomainLoginParts(s);
    var u := Lower(s[..AlnumPrefix(s) + 10]);
    ParsedWithAt(s, validEmail, u);
  }

  /** A matching name whose kept, lower-cased text holds an '@' is looked up by email exactly when that text is a valid email. */
  lemma ParsedWithAt(s: string, validEmail: string -> bool, u: string)
    requires MatchesUsername(s) && Lower(Strip(s)) == u && '@' in u
    ensures ParseUsername(s, validEmail) == Some(if validEmail(u) then ByEmail(u) else ByUsername(u))
  {
  }

  /** The kept text of a name with the domain, lower-cased, and the part before its '@'. */
  lemma DomainLoginParts(s: string)
    requires MatchesUsername(s) && DomainAt(s, AlnumPrefix(s))
    ensures var k := AlnumPrefix(s);
            var u := Lower(s[..k + 10]);
            Lower(Strip(s)) == u && '@' in u && Split(u, '@')[0] == Lower(s[..k])
  {
    var k := AlnumPrefix(s);
    assert LoginEnd(s) == k + 10;
    StrippedLogin(s);
    DomainAtSplit(s, k);
  }

  /** The text up to the end of the domain is the name, an '@' and the rest of the domain. */
  lemma DomainAtSplit(s: string, k: nat)
    requires k == AlnumPrefix(s) && DomainAt(s, k)
    ensures '@' in Lower(s[..k + 10]) && Split(Lower(s[..k + 10]), '@')[0] == Lower(s[..k])
  {
    var a, b := s[..k], s[k + 1..k + 10];
    assert s[..k + 10] == a + ['@'] + b by {
      DomainEnd(s, k);
      SliceAround(s, k, k + 10);
    }
    LowerAtSplit(a, b);
  }

  /** An alphanumeric name, an '@' and anything: lower-cased it still splits at that '@'. */
  lemma LowerAtSplit(a: string, b: string)
    requires forall j :: 0 <= j < |a| ==> IsAlnum(a[j])
    ensures '@' in Lower(a + ['@'] + b) && Split(Lower(a + ['@'] + b), '@')[0] == Lower(a)
  {
    var u := Lower(a + ['@'] + b);
    assert u == Lower(a) + ['@'] + Lower(b) by {
      LowerAppend(a + ['@'], b);
      LowerAppend(a, ['@']);
      assert Lower(['@']) == ['@'];
    }
    assert u[|a|] == '@';
    NoAtInLowerAlnum(a);
    SplitAtSep(Lower(a), '@', Lower(b));
  }

  // ---------------------------------------------------------------------
  // Logging in
  // ---------------------------------------------------------------------

  /** `user_can_authenticate`: `is_active` is true, or the user has no such attribute (`None`). */
  function UserCanAuthenticate(isActive: Option<bool>): (r: bool)
    ensures r <==> isActive != Some(false)
  {
    isActive.None? || isActive.value
  }

  /** A stored login User as `authenticate` sees it. */
  datatype Account = Account(username: string, isActive: Option<bool>, passwordMatches: bool)

  datatype Login = Refused | LocalLogin(account: Account) | DirectoryLogin(uid: string)

  /**
   * `authenticate`: `lookup` finds the stored User for a lookup key. A stored
   * User needs the right password and may not be inactive; with no stored User
   * the directory is asked to authenticate the uid.
   */
  function Authenticate(username: string, validEmail: string -> bool, lookup: UserLookup -> Option<Account>): (r: Login)
    ensures !MatchesUsername(username) ==> r == Refused
    ensures r.LocalLogin? ==>
              ParseUsername(username, validEmail).Some?
              && lookup(ParseUsername(username, validEmail).value) == Some(r.account)
              && r.account.passwordMatches && r.account.isActive != Some(false)
    ensures r.DirectoryLogin? ==>
              ParseUsername(username, validEmail).Some?
              && lookup(ParseUsername(username, validEmail).value).None?
              && r.uid == LdapUid(ParseUsername(username, validEmail).value)
  {
    var id := ParseUsername(username, validEmail);
    if id.None? then Refused
    else match lookup(id.value)
      case Some(account) =>
        if account.passwordMatches && UserCanAuthenticate(account.isActive) then LocalLogin(account) else Refused
      case None => DirectoryLogin(LdapUid(id.value))
  }

  /** An inactive stored User never logs in, whatever the password. */
  lemma InactiveNeverLogsIn(username: string, validEmail: string -> bool, lookup: UserLookup -> Option<Account>)
    requires ParseUsername(username, validEmail).Some?
    requires var found := lookup(ParseUsername(username, validEmail).value);
             found.Some? && found.value.isActive == Some(false)
    ensures Authenticate(username, validEmail, lookup) == Refused
  {
  }

  /** A new bare name goes to the directory as its lower-cased alphanumeric uid. */
  lemma BareNameReachesDirectory(s: string, validEmail: string -> bool, lookup: UserLookup -> Option<Account>)
    requires MatchesUsername(s) && AtEnd(s, AlnumPrefix(s))
    requires lookup(ByUsername(Lower(s[..AlnumPrefix(s)]))).None?
    ensures Authenticate(s, validEmail, lookup) == DirectoryLogin(Lower(s[..AlnumPrefix(s)]))
  {
    BareNameLogin(s, validEmail);
  }

  // ---------------------------------------------------------------------
  // Permissions
  // ---------------------------------------------------------------------

  datatype Permission = Permission(appLabel: string, codename: string)

  /** `'%s.%s' % (ct, name)`. */
  function PermName(p: Permission): string {
    p.appLabel + "." + p.codename
  }

  function PermNames(ps: set<Permission>): set<string> {
    set p | p in ps :: PermName(p)
  }

  /** The text before the first '.', and whether there is one. */
  function UpToDot(s: string): (r: string)
    ensures |r| <= |s| && r == s[..|r|] && '.' !in r
    ensures |r| < |s| <==> '.' in s
    ensures |r| < |s| ==> s[|r|] == '.'
  {
    if s == [] || s[0] == '.' then [] else [s[0]] + UpToDot(s[1..])
  }

  /** `perm[:perm.index('.')]`; `index` raises when there is no '.', given here as `None`. */
  function ModulePrefix(perm: string): (r: Option<string>)
    ensures r.Some? <==> '.' in perm
    ensures r.Some? ==> '.' !in r.value && StartsWith(perm, r.value + ".")
  {
    if '.' in perm then
      var head := UpToDot(perm);
      assert perm[..|head| + 1] == head + ".";
      Some(head)
    else None
  }

  /** A permission name gives back its app label. */
  lemma ModulePrefixOfName(p: Permission)
    requires '.' !in p.appLabel
    ensures ModulePrefix(PermName(p)) == Some(p.appLabel)
  {
    var name := PermName(p);
    assert name[|p.appLabel|] == '.';
    assert name[..|p.appLabel|] == p.appLabel;
    assert '.' in name;
    var head := UpToDot(name);
    assert head == name[..|p.appLabel|];
  }

  /** Some permission's module prefix is `app` exactly when some permission belongs to `app`. */
  lemma ModulePermsIff(ps: set<Permission>, app: string)
    requires forall p :: p in ps ==> '.' !in p.appLabel
    ensures (exists n :: n in PermNames(ps) && ModulePrefix(n) == Some(app))
            <==> (exists p :: p in ps && p.appLabel == app)
  {
    if exists p :: p in ps && p.appLabel == app {
      var p :| p in ps && p.appLabel == app;
      ModulePrefixOfName(p);
      assert PermName(p) in PermNames(ps);
    }
    if exists n :: n in PermNames(ps) && ModulePrefix(n) == Some(app) {
      var n :| n in PermNames(ps) && ModulePrefix(n) == Some(app);
      var p :| p in ps && PermName(p) == n;
      ModulePrefixOfName(p);
    }
  }

  datatype PermSource = FromUser | FromGroups

  /** A user object with the permission caches `_get_permissions` and `get_all_permissions` attach to it. */
  class PermissionUser {
    var isActive: bool
    var isAnonymous: bool
    var isSuperuser: bool
    /** The database's answer for the user's own permissions and for their groups' permissions. */
    var ownPermissions: set<Permission>
    var groupPermissions: set<Permission>
    /** `_user_perm_cache`, `_group_perm_cache` and `_perm_cache`; `None` while unset. */
    var userPermCache: Option<set<string>>
    var groupPermCache: Option<set<string>>
    var permCache: Option<set<string>>

    constructor (isActive: bool, isAnonymous: bool, isSuperuser: bool, own: set<Permission>, groups: set<Permission>)
      ensures this.isActive == isActive && this.isAnonymous == isAnonymous && this.isSuperuser == isSuperuser
      ensures ownPermissions == own && groupPermissions == groups
      ensures userPermCache.None? && groupPermCache.None? && permCache.None?
    {
      this.isActive := isActive;
      this.isAnonymous := isAnonymous;
      this.isSuperuser := isSuperuser;
      ownPermissions := own;
      groupPermissions := groups;
      userPermCache := None;
      groupPermCache := None;
      permCache := None;
    }

    /** What `_get_permissions` reads from the database: every permission for a superuser. */
    function SourceNames(from: PermSource, all: set<Permission>): set<string>
      reads this
    {
      if isSuperuser then PermNames(all)
      else if from == FromUser then PermNames(ownPermissions)
      else PermNames(groupPermissions)
    }

    /** The user's permission names, own and through groups. */
    function AllNames(all: set<Permission>): set<string>
      reads this
    {
      SourceNames(FromUser, all) + SourceNames(FromGroups, all)
    }

    function Cache(from: PermSource): Option<set<string>>
      reads this
    {
      if from == FromUser then userPermCache else groupPermCache
    }

    /** Every cache that is set holds what the database says now. */
    predicate CachesCurrent(all: set<Permission>)
      reads this
    {
      (userPermCache.Some? ==> userPermCache.value == SourceNames(FromUser, all))
      && (groupPermCache.Some? ==> groupPermCache.value == SourceNames(FromGroups, all))
      && (permCache.Some? ==> permCache.value == AllNames(all))
    }

    /** Whether the permission checks see no permissions at all. */
    predicate Excluded(hasObj: bool)
      reads this
    {
      !isActive || isAnonymous || hasObj
    }
  }

  /**
   * `_get_permissions`: nothing for an inactive or anonymous user or an object
   * check; otherwise the cached set, which the first call fills. `all` is
   * `Permission.objects.all()`.
   */
  method GetPermissions(user: PermissionUser, hasObj: bool, from: PermSource, all: set<Permission>) returns (r: set<string>)
    modifies user`userPermCache, user`groupPermCache
    ensures user.Excluded(hasObj) ==> r == {} && unchanged(user)
    ensures !user.Excluded(hasObj) ==>
              r == (if old(user.Cache(from)).Some? then old(user.Cache(from)).value else user.SourceNames(from, all))
              && user.Cache(from) == Some(r)
    ensures from == FromUser ==> user.groupPermCache == old(user.groupPermCache)
    ensures from == FromGroups ==> user.userPermCache == old(user.userPermCache)
    ensures old(user.CachesCurrent(all)) ==> user.CachesCurrent(all)
    ensures old(user.CachesCurrent(all)) && !user.Excluded(hasObj) ==> r == user.SourceNames(from, all)
  {
    if user.Excluded(hasObj) {
      return {};
    }
    var cache := if from == FromUser then user.userPermCache else user.groupPermCache;
    if cache.None? {
      var perms := user.SourceNames(from, all);
      if from == FromUser {
        user.userPermCache := Some(perms);
      } else {
        user.groupPermCache := Some(perms);
      }
      cache := Some(perms);
    }
    r := cache.value;
  }

  /** `get_all_permissions`: the user's own and group permission names, cached in `_perm_cache`. */
  method GetAllPermissions(user: PermissionUser, hasObj: bool, all: set<Permission>) returns (r: set<string>)
    modifies user`userPermCache, user`groupPermCache, user`permCache
    ensures user.Excluded(hasObj) ==> r == {} && unchanged(user)
    ensures !user.Excluded(hasObj) ==> user.permCache == Some(r)
    ensures !user.Excluded(hasObj) && old(user.permCache).Some? ==> r == old(user.permCache).value
    ensures old(user.CachesCurrent(all)) ==> user.CachesCurrent(all)
    ensures old(user.CachesCurrent(all)) && !user.Excluded(hasObj) ==> r == user.AllNames(all)
  {
    if user.Excluded(hasObj) {
      return {};
    }
    if user.permCache.None? {
      var own := GetPermissions(user, false, FromUser, all);
      var groups := GetPermissions(user, false, FromGroups, all);
      user.permCache := Some(own + groups);
    }
    r := user.permCache.value;
  }

  /** `has_perm`: an active user whose permission names include `perm`. */
  method HasPerm(user: PermissionUser, perm: string, hasObj: bool, all: set<Permission>) returns (b: bool)
    requires user.CachesCurrent(all)
    modifies user`userPermCache, user`groupPermCache, user`permCache
    ensures user.CachesCurrent(all)
    ensures b <==> !user.Excluded(hasObj) && perm in user.AllNames(all)
  {
    if !user.isActive {
      return false;
    }
    var perms := GetAllPermissions(user, hasObj, all);
    b := perm in perms;
  }

  /** The permissions a user holds in the database: all of them for a superuser. */
  function HeldPermissions(user: PermissionUser, all: set<Permission>): set<Permission>
    reads user
  {
    if user.isSuperuser then all else user.ownPermissions + user.groupPermissions
  }

  /**
   * `has_module_perms`: an active user holding some permission of the app
   * `appLabel`. App labels never contain a '.'.
   */
  method HasModulePerms(user: PermissionUser, appLabel: string, all: set<Permission>) returns (b: bool)
    requires user.CachesCurrent(all)
    requires forall p :: p in all + user.ownPermissions + user.groupPermissions ==> '.' !in p.appLabel
    modifies user`userPermCache, user`groupPermCache, user`permCache
    ensures user.CachesCurrent(all)
    ensures b <==> user.isActive && !user.isAnonymous && exists p :: p in HeldPermissions(user, all) && p.appLabel == appLabel
  {
    if !user.isActive {
      return false;
    }
    var perms := GetAllPermissions(user, false, all);
    b := exists n :: n in perms && ModulePrefix(n) == Some(appLabel);
    if !user.isAnonymous {
      var held := HeldPermissions(user, all);
      assert perms == PermNames(held) by {
        if !user.isSuperuser {
          assert PermNames(user.ownPermissions) + PermNames(user.groupPermissions)
                 == PermNames(user.ownPermissions + user.groupPermissions);
        }
      }
      ModulePermsIff(held, appLabel);
    }
  }

  // ---------------------------------------------------------------------
  // Whole-entry directory reads
  // ---------------------------------------------------------------------

  /** The `attributes` argument of `get_ldap_user_info`. */
  datatype AttributesArg = NoArgument | AttributeNames(names: seq<string>) | AttributeText(text: string) | OtherArgument

  datatype AttributeRequest = AllAttributes | Attributes(names: seq<string>)

  const AllAttributesText := "ALL_ATTRIBUTES"
  const AttributesTypeMessage := "Attributes var must be a of type [list | None]."

  /** `get_ldap_user_info`'s argument check: a list, nothing, or the text 'ALL_ATTRIBUTES'. */
  function LdapInfoRequest(arg: AttributesArg): (r: Result<AttributeRequest>)
    ensures r.Err? <==> arg.OtherArgument? || (arg.AttributeText? && arg.text != AllAttributesText)
    ensures r.Err? ==> r.error == ValidationError(AttributesTypeMessage)
    ensures r == Ok(AllAttributes) <==> arg.NoArgument? || arg == AttributeText(AllAttributesText)
    ensures arg.AttributeNames? ==> r == Ok(Attributes(arg.names))
  {
    match arg
    case NoArgument => Ok(AllAttributes)
    case AttributeNames(names) => Ok(Attributes(names))
    case AttributeText(text) =>
      if text == AllAttributesText then Ok(AllAttributes) else Err(ValidationError(AttributesTypeMessage))
    case OtherArgument => Err(ValidationError(AttributesTypeMessage))
  }
}
