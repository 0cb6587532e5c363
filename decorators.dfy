/**
 * The `group_required` view decorator: which requests reach the view, which
 * are sent to the login page and which are refused.
 */
module Decorators {
  import opened Wrappers
  import Text

  /** One value naming a group: a `Group` model, or anything else, given by its `str()`. */
  datatype GroupRef = GroupModel(name: string) | GroupText(text: string)

  /** One positional argument of `group_required`: a list or tuple of groups, or a single one. */
  datatype GroupArg = Many(refs: seq<GroupRef>) | Single(ref: GroupRef)

  /** The groups one argument contributes, a list or tuple being opened one level. */
  function RefsOf(arg: GroupArg): seq<GroupRef> {
    match arg
    case Many(refs) => refs
    case Single(ref) => [ref]
  }

  /** All the arguments' groups in order, lists and tuples flattened one level. */
  function Flatten(args: seq<GroupArg>): seq<GroupRef> {
    if args == [] then []
    else Flatten(args[..|args| - 1]) + RefsOf(args[|args| - 1])
  }

  /** A group is required exactly when some argument names it directly or lists it. */
  lemma {:induction false} FlattenMembers(args: seq<GroupArg>, ref: GroupRef)
    ensures ref in Flatten(args) <==> exists a :: a in args && ref in RefsOf(a)
  {
    if args != [] {
      var init := args[..|args| - 1];
      FlattenMembers(init, ref);
      assert args == init + [args[|args| - 1]];
      if ref in Flatten(args) && ref !in Flatten(init) {
        assert args[|args| - 1] in args;
      }
      if exists a :: a in args && ref in RefsOf(a) {
        var a :| a in args && ref in RefsOf(a);
        if a != args[|args| - 1] {
          assert a in init;
        }
      }
    }
  }

  /** `_validate_group`: a model is used as is; anything else names a group after stripping. */
  function ValidateGroup(ref: GroupRef, existing: set<string>): (r: Result<string>)
    ensures r.Ok? ==> ref.GroupModel? || r.value in existing
    ensures r.Err? <==> ref.GroupText? && Text.Strip(ref.text) !in existing
    ensures r.Err? ==> r.error == DoesNotExist
  {
    match ref
    case GroupModel(name) => Ok(name)
    case GroupText(text) =>
      var name := Text.Strip(text);
      if name in existing then Ok(name) else Err(DoesNotExist)
  }

  /** Validating the groups in order, stopping at the first unknown name. */
  function ValidateAll(refs: seq<GroupRef>, existing: set<string>): Result<seq<string>> {
    if refs == [] then Ok([])
    else
      match ValidateAll(refs[..|refs| - 1], existing)
      case Err(e) => Err(e)
      case Ok(names) =>
        match ValidateGroup(refs[|refs| - 1], existing)
        case Err(e) => Err(e)
        case Ok(name) => Ok(names + [name])
  }

  /** The validation succeeds exactly when every group does, and then yields each group's name in place. */
  lemma {:induction false} ValidateAllSpec(refs: seq<GroupRef>, existing: set<string>)
    ensures ValidateAll(refs, existing).Ok? <==> forall i :: 0 <= i < |refs| ==> ValidateGroup(refs[i], existing).Ok?
    ensures ValidateAll(refs, existing).Err? ==> ValidateAll(refs, existing).error == DoesNotExist
    ensures ValidateAll(refs, existing).Ok? ==>
              |ValidateAll(refs, existing).value| == |refs|
              && forall i :: 0 <= i < |refs| ==> ValidateAll(refs, existing).value[i] == ValidateGroup(refs[i], existing).value
  {
    ValidateAllFails(refs, existing);
    ValidateAllNames(refs, existing);
  }

  /** Validation fails exactly when some group does, and then with DoesNotExist. */
  lemma {:induction false} ValidateAllFails(refs: seq<GroupRef>, existing: set<string>)
    ensures ValidateAll(refs, existing).Ok? <==> forall i :: 0 <= i < |refs| ==> ValidateGroup(refs[i], existing).Ok?
    ensures ValidateAll(refs, existing).Err? ==> ValidateAll(refs, existing).error == DoesNotExist
  {
    if refs != [] {
      var n := |refs| - 1;
      var init := refs[..n];
      ValidateAllFails(init, existing);
      assert init + [refs[n]] == refs;
      ValidateSnoc(init, refs[n], existing);
      var v := ValidateAll(init, existing);
      if v.Err? {
        var i :| 0 <= i < n && !ValidateGroup(init[i], existing).Ok?;
        assert refs[i] == init[i];
      } else if ValidateGroup(refs[n], existing).Ok? {
        forall i | 0 <= i < |refs|
          ensures ValidateGroup(refs[i], existing).Ok?
        {
          if i < n {
            assert refs[i] == init[i];
          }
        }
      }
    }
  }

  /** A successful validation yields each group's name in place. */
  lemma {:induction false} ValidateAllNames(refs: seq<GroupRef>, existing: set<string>)
    ensures ValidateAll(refs, existing).Ok? ==>
              |ValidateAll(refs, existing).value| == |refs|
              && forall i :: 0 <= i < |refs| ==> ValidateGroup(refs[i], existing) == Ok(ValidateAll(refs, existing).value[i])
  {
    if refs != [] && ValidateAll(refs, existing).Ok? {
      var n := |refs| - 1;
      var init := refs[..n];
      ValidateAllNames(init, existing);
      var names := ValidateAll(init, existing).value;
      var all := names + [ValidateGroup(refs[n], existing).value];
      assert ValidateAll(refs, existing).value == all;
      forall i | 0 <= i < |refs|
        ensures ValidateGroup(refs[i], existing) == Ok(all[i])
      {
        if i < n {
          assert refs[i] == init[i];
        }
      }
    }
  }

  /** The loop building `required_group_set`. */
  method RequiredGroupSet(args: seq<GroupArg>, existing: set<string>) returns (r: Result<seq<string>>)
    ensures r == ValidateAll(Flatten(args), existing)
  {
    var names: seq<string> := [];
    for k := 0 to |args|
      invariant ValidateAll(Flatten(args[..k]), existing) == Ok(names)
    {
      var step := ValidateEach(Flatten(args[..k]), names, RefsOf(args[k]), existing);
      assert args[..k + 1][..k] == args[..k];
      if step.Err? {
        FlattenAround(args, k);
        ValidatePrefixFails(Flatten(args[..k]) + RefsOf(args[k]), Flatten(args[k + 1..]), existing);
        return step;
      }
      names := step.value;
    }
    assert args[..|args|] == args;
    r := Ok(names);
  }

  /** The inner loop over one list argument, appending each validated group to `names`. */
  method ValidateEach(done: seq<GroupRef>, names: seq<string>, refs: seq<GroupRef>, existing: set<string>) returns (r: Result<seq<string>>)
    requires ValidateAll(done, existing) == Ok(names)
    ensures r == ValidateAll(done + refs, existing)
  {
    var acc := names;
    assert done + refs[..0] == done;
    for m := 0 to |refs|
      invariant ValidateAll(done + refs[..m], existing) == Ok(acc)
    {
      assert done + refs[..m + 1] == (done + refs[..m]) + [refs[m]];
      ValidateSnoc(done + refs[..m], refs[m], existing);
      var name := ValidateGroup(refs[m], existing);
      if name.Err? {
        FailedPrefix(done, refs, m + 1, existing);
        return Err(name.error);
      }
      acc := acc + [name.value];
    }
    assert refs[..|refs|] == refs;
    r := Ok(acc);
  }

  /** Validating one more group: an earlier failure stays, otherwise the group's own result decides. */
  lemma {:induction false} ValidateSnoc(refs: seq<GroupRef>, ref: GroupRef, existing: set<string>)
    ensures ValidateAll(refs + [ref], existing) ==
              if ValidateAll(refs, existing).Err? then ValidateAll(refs, existing)
              else if ValidateGroup(ref, existing).Err? then Err(DoesNotExist)
              else Ok(ValidateAll(refs, existing).value + [ValidateGroup(ref, existing).value])
  {
    assert (refs + [ref])[..|refs|] == refs;
  }

  /** Flattening distributes over concatenation of the argument lists. */
  lemma {:induction false} FlattenAppend(a: seq<GroupArg>, b: seq<GroupArg>)
    ensures Flatten(a + b) == Flatten(a) + Flatten(b)
  {
    if b != [] {
      var n := |b| - 1;
      FlattenAppend(a, b[..n]);
      assert (a + b)[..|a + b| - 1] == a + b[..n];
    } else {
      assert a + b == a;
    }
  }

  /** A failure among the first `n` groups of a list is the failure of the whole list. */
  lemma {:induction false} FailedPrefix(done: seq<GroupRef>, refs: seq<GroupRef>, n: nat, existing: set<string>)
    requires n <= |refs|
    requires ValidateAll(done + refs[..n], existing).Err?
    ensures ValidateAll(done + refs, existing) == ValidateAll(done + refs[..n], existing)
  {
    assert done + refs == (done + refs[..n]) + refs[n..] by {
      assert refs == refs[..n] + refs[n..];
    }
    ValidatePrefixFails(done + refs[..n], refs[n..], existing);
  }

  /** The flattening splits around the `k`-th argument. */
  lemma {:induction false} FlattenAround(args: seq<GroupArg>, k: nat)
    requires k < |args|
    ensures Flatten(args) == (Flatten(args[..k]) + RefsOf(args[k])) + Flatten(args[k + 1..])
  {
    var a, x, c := args[..k], args[k], args[k + 1..];
    assert args == a + ([x] + c);
    FlattenAppend(a, [x] + c);
    FlattenAppend([x], c);
    assert Flatten([x]) == RefsOf(x) by {
      assert [x][..0] == [];
    }
    assert Flatten(a) + (RefsOf(x) + Flatten(c)) == (Flatten(a) + RefsOf(x)) + Flatten(c);
  }

  /** Validation fails on an extension of a failing list, with the same error. */
  lemma {:induction false} ValidatePrefixFails(done: seq<GroupRef>, rest: seq<GroupRef>, existing: set<string>)
    requires ValidateAll(done, existing).Err?
    ensures ValidateAll(done + rest, existing) == ValidateAll(done, existing)
  {
    if rest != [] {
      var init := rest[..|rest| - 1];
      ValidatePrefixFails(done, init, existing);
      assert (done + rest)[..|done + rest| - 1] == done + init;
    } else {
      assert done + rest == done;
    }
  }

  /** What a decorated view does with a request. */
  datatype Access = LoginRedirect | ViewCalled

  /** The decision on a validated set: superusers, and users sharing a group with it, reach the view. */
  predicate SharesGroup(userGroups: set<string>, required: seq<string>) {
    exists g :: g in required && g in userGroups
  }

  /**
   * `group_required`'s wrapper: unauthenticated users go to the login page;
   * the required groups are validated next (an unknown name raises even for
   * a superuser); then superusers and members of a required group reach the
   * view, and everyone else gets PermissionDenied.
   */
  method GroupRequired(authenticated: bool, superuser: bool, userGroups: set<string>, args: seq<GroupArg>, existing: set<string>) returns (r: Result<Access>)
    ensures !authenticated ==> r == Ok(LoginRedirect)
    ensures authenticated && ValidateAll(Flatten(args), existing).Err? ==> r == Err(DoesNotExist)
    ensures authenticated && ValidateAll(Flatten(args), existing).Ok? ==>
              (r == Ok(ViewCalled) <==> superuser || SharesGroup(userGroups, ValidateAll(Flatten(args), existing).value))
    ensures authenticated && ValidateAll(Flatten(args), existing).Ok? ==> r == Ok(ViewCalled) || r == Err(PermissionDenied)
  {
    if !authenticated {
      return Ok(LoginRedirect);
    }
    var required := RequiredGroupSet(args, existing);
    if required.Err? {
      ValidateAllSpec(Flatten(args), existing);
      return Err(required.error);
    }
    var shared := SharesGroupOf(userGroups, required.value);
    if superuser || shared {
      r := Ok(ViewCalled);
    } else {
      r := Err(PermissionDenied);
    }
  }

  /** `user.groups.filter(name__in=...).exists()`: a scan of the required names. */
  method SharesGroupOf(userGroups: set<string>, required: seq<string>) returns (b: bool)
    ensures b <==> SharesGroup(userGroups, required)
  {
    for k := 0 to |required|
      invariant forall i :: 0 <= i < k ==> required[i] !in userGroups
    {
      if required[k] in userGroups {
        return true;
      }
    }
    return false;
  }

  /** A list argument contributes exactly its members, as if each were passed on its own. */
  lemma ListIsFlattened(refs: seq<GroupRef>)
    ensures Flatten([Many(refs)]) == Flatten(seq(|refs|, i requires 0 <= i < |refs| => Single(refs[i])))
  {
    var singles := seq(|refs|, i requires 0 <= i < |refs| => Single(refs[i]));
    SinglesFlatten(refs, singles);
    assert [Many(refs)][..0] == [];
  }

  lemma {:induction false} SinglesFlatten(refs: seq<GroupRef>, singles: seq<GroupArg>)
    requires |singles| == |refs| && forall i :: 0 <= i < |refs| ==> singles[i] == Single(refs[i])
    ensures Flatten(singles) == refs
  {
    if refs != [] {
      var n := |refs| - 1;
      SinglesFlatten(refs[..n], singles[..n]);
      assert refs == refs[..n] + [refs[n]];
    }
  }

  /** An unknown group name refuses even a superuser: validation comes before the superuser test. */
  lemma UnknownGroupBeatsSuperuser(name: string, existing: set<string>)
    requires Text.Strip(name) !in existing
    ensures ValidateAll(Flatten([Single(GroupText(name))]), existing) == Err(DoesNotExist)
  {
    assert [Single(GroupText(name))][..0] == [];
    assert Flatten([Single(GroupText(name))]) == [GroupText(name)];
    assert [GroupText(name)][..0] == [];
  }
}
