/**
 * The first login backend, `settings/backends.py`: it takes any login name,
 * only stripping it, and otherwise shares the lookup-key, uid, activity and
 * permission rules of the directory backends.
 */
module SettingsBackends {
  import opened Wrappers
  import opened Text
  import BaseAuth

  /** `_parse_username`: no pattern and no lower-casing, only a strip. */
  function ParseUsername(username: string, validEmail: string -> bool): (r: BaseAuth.UserLookup)
    ensures r.ByEmail? <==> '@' in Strip(username) && validEmail(Strip(username))
    ensures r == BaseAuth.ByEmail(Strip(username)) || r == BaseAuth.ByUsername(Strip(username))
  {
    var u := Strip(username);
    if '@' in u && validEmail(u) then BaseAuth.ByEmail(u) else BaseAuth.ByUsername(u)
  }

  /**
   * `authenticate`: every login name reaches the lookup; a stored User needs
   * the right password and may not be inactive, and an unknown one goes to
   * the directory under its uid.
   */
  function Authenticate(username: string, validEmail: string -> bool, lookup: BaseAuth.UserLookup -> Option<BaseAuth.Account>): (r: BaseAuth.Login)
    ensures r.LocalLogin? ==>
              lookup(ParseUsername(username, validEmail)) == Some(r.account)
              && r.account.passwordMatches && r.account.isActive != Some(false)
    ensures r.DirectoryLogin? <==> lookup(ParseUsername(username, validEmail)).None?
    ensures r.DirectoryLogin? ==> r.uid == BaseAuth.LdapUid(ParseUsername(username, validEmail))
  {
    var id := ParseUsername(username, validEmail);
    match lookup(id)
    case Some(account) =>
      if account.passwordMatches && BaseAuth.UserCanAuthenticate(account.isActive) then BaseAuth.LocalLogin(account)
      else BaseAuth.Refused
    case None => BaseAuth.DirectoryLogin(BaseAuth.LdapUid(id))
  }

  /** Lower-casing a lower-case text changes none of its slices. */
  lemma LowerOfLowerPrefix(s: string, e: nat)
    requires Lower(s) == s && e <= |s|
    ensures Lower(s[..e]) == s[..e]
  {
    assert forall i :: 0 <= i < e ==> Lower(s[..e])[i] == Lower(s)[i];
  }

  /** On a lower-case name the pattern accepts, the strict parser agrees with this one. */
  lemma StrictAgreesOnLowerCase(s: string, validEmail: string -> bool)
    requires BaseAuth.MatchesUsername(s) && Lower(s) == s
    ensures BaseAuth.ParseUsername(s, validEmail) == Some(ParseUsername(s, validEmail))
  {
    BaseAuth.StrippedLogin(s);
    LowerOfLowerPrefix(s, BaseAuth.LoginEnd(s));
  }

  /** So do the two logins, which differ only in the parser. */
  lemma StrictLoginAgreesOnLowerCase(s: string, validEmail: string -> bool, lookup: BaseAuth.UserLookup -> Option<BaseAuth.Account>)
    requires BaseAuth.MatchesUsername(s) && Lower(s) == s
    ensures BaseAuth.Authenticate(s, validEmail, lookup) == Authenticate(s, validEmail, lookup)
  {
    StrictAgreesOnLowerCase(s, validEmail);
  }

  /** A name the strict parser refuses, two words around a space, still reaches the lookup here as it is. */
  lemma InnerSpaceReachesLookup(a: string, b: string, validEmail: string -> bool)
    requires a != [] && b != []
    requires forall j :: 0 <= j < |a| ==> BaseAuth.IsAlnum(a[j])
    requires forall j :: 0 <= j < |b| ==> BaseAuth.IsAlnum(b[j])
    ensures !BaseAuth.MatchesUsername(a + " " + b)
    ensures ParseUsername(a + " " + b, validEmail) == BaseAuth.ByUsername(a + " " + b)
  {
    var s := a + " " + b;
    assert s[|a|] == ' ';
    var k := BaseAuth.AlnumPrefix(s);
    assert k == |a|;
    assert s[0] == a[0] && s[|s| - 1] == b[|b| - 1];
    StripTrimmed(s);
    assert forall i :: 0 <= i < |s| ==> s[i] != '@' by {
      forall i | 0 <= i < |s|
        ensures s[i] != '@'
      {
        if i < |a| {
          assert s[i] == a[i];
        } else if i > |a| {
          assert s[i] == b[i - |a| - 1];
        }
      }
    }
  }
}
