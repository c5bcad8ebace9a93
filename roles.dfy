/** The role helper `applyRoles`: resolve the guild and the member, then
    remove every role of the remove list and afterwards add every role of the
    add list, one platform call per role, each of which may fail on its own. */
module Roles {

  /** A role id; the empty string is an unset role (the environment variable
      defaulted to ''), which the helper skips. */
  type RoleId = string

  /** The declarative argument `{ add, remove }`. */
  datatype RoleSpec = RoleSpec(add: seq<RoleId>, remove: seq<RoleId>)

  /** Which individual platform calls fail, by their position in the remove
      list and in the add list. A failing call is logged and skipped. */
  datatype Outcomes = Outcomes(failedRemoves: set<nat>, failedAdds: set<nat>)

  const AllSucceed := Outcomes({}, {})

  /** The guild member whose role set the platform calls change in place. */
  class Member {
    var roles: set<RoleId>

    constructor (roles: set<RoleId>)
      ensures this.roles == roles
    {
      this.roles := roles;
    }
  }

  /** Roles named by a list, with the unset ids left out. */
  function Named(ids: seq<RoleId>): set<RoleId> {
    set x | x in ids && x != ""
  }

  /** Roles whose call at some position of the list is made and succeeds. */
  function Succeeded(ids: seq<RoleId>, failed: set<nat>): set<RoleId> {
    set i | 0 <= i < |ids| && ids[i] != "" && i !in failed :: ids[i]
  }

  /** The role set after the remove calls of `ids`, made one after the other. */
  function AfterRemoves(r: set<RoleId>, ids: seq<RoleId>, failed: set<nat>): set<RoleId>
    decreases |ids|
  {
    if ids == [] then r
    else
      var k := |ids| - 1;
      var prev := AfterRemoves(r, ids[..k], failed);
      if ids[k] == "" || k in failed then prev else prev - {ids[k]}
  }

  /** The role set after the add calls of `ids`, made one after the other. */
  function AfterAdds(r: set<RoleId>, ids: seq<RoleId>, failed: set<nat>): set<RoleId>
    decreases |ids|
  {
    if ids == [] then r
    else
      var k := |ids| - 1;
      var prev := AfterAdds(r, ids[..k], failed);
      if ids[k] == "" || k in failed then prev else prev + {ids[k]}
  }

  /** The role set after a resolved member has gone through both loops. */
  function Applied(r: set<RoleId>, spec: RoleSpec, out: Outcomes): set<RoleId> {
    AfterAdds(AfterRemoves(r, spec.remove, out.failedRemoves), spec.add, out.failedAdds)
  }

  lemma {:induction false} SucceededPrefix(ids: seq<RoleId>, failed: set<nat>)
    requires ids != []
    ensures var k := |ids| - 1;
      Succeeded(ids, failed)
        == Succeeded(ids[..k], failed) + (if ids[k] == "" || k in failed then {} else {ids[k]})
  {
    var k := |ids| - 1;
    var extra := if ids[k] == "" || k in failed then {} else {ids[k]};
    forall x | x in Succeeded(ids, failed)
      ensures x in Succeeded(ids[..k], failed) + extra
    {
      var i :| 0 <= i < |ids| && ids[i] != "" && i !in failed && ids[i] == x;
      if i < k {
        assert ids[..k][i] == x;
      }
    }
    forall x | x in Succeeded(ids[..k], failed)
      ensures x in Succeeded(ids, failed)
    {
      var i :| 0 <= i < k && ids[..k][i] != "" && i !in failed && ids[..k][i] == x;
      assert ids[i] == x;
    }
  }

  /** Remove calls commute: the loop removes exactly the roles whose call succeeded. */
  lemma {:induction false} AfterRemovesClosedForm(r: set<RoleId>, ids: seq<RoleId>, failed: set<nat>)
    ensures AfterRemoves(r, ids, failed) == r - Succeeded(ids, failed)
    decreases |ids|
  {
    if ids != [] {
      AfterRemovesClosedForm(r, ids[..|ids| - 1], failed);
      SucceededPrefix(ids, failed);
    }
  }

  /** Add calls commute: the loop adds exactly the roles whose call succeeded. */
  lemma {:induction false} AfterAddsClosedForm(r: set<RoleId>, ids: seq<RoleId>, failed: set<nat>)
    ensures AfterAdds(r, ids, failed) == r + Succeeded(ids, failed)
    decreases |ids|
  {
    if ids != [] {
      AfterAddsClosedForm(r, ids[..|ids| - 1], failed);
      SucceededPrefix(ids, failed);
    }
  }

  /** Each call counts on its own: whatever else fails, a role whose add call
      succeeded is present, a role whose remove call succeeded and that is not
      re-added is absent, roles named nowhere are untouched, and no role
      appears that is neither held nor requested. */
  lemma AppliedWithFailures(r: set<RoleId>, spec: RoleSpec, out: Outcomes)
    ensures Applied(r, spec, out)
      == (r - Succeeded(spec.remove, out.failedRemoves)) + Succeeded(spec.add, out.failedAdds)
    ensures Succeeded(spec.add, out.failedAdds) <= Applied(r, spec, out)
    ensures Applied(r, spec, out) <= r + Named(spec.add)
    ensures r - Named(spec.remove) <= Applied(r, spec, out)
  {
    AfterRemovesClosedForm(r, spec.remove, out.failedRemoves);
    AfterAddsClosedForm(AfterRemoves(r, spec.remove, out.failedRemoves), spec.add, out.failedAdds);
  }

  lemma SucceededAll(ids: seq<RoleId>)
    ensures Succeeded(ids, {}) == Named(ids)
  {
    forall x | x in Named(ids) ensures x in Succeeded(ids, {}) {
      var i :| 0 <= i < |ids| && ids[i] == x;
    }
  }

  /** Without failures the result is (R \ remove) ∪ add. */
  lemma AppliedNoFailure(r: set<RoleId>, spec: RoleSpec)
    ensures Applied(r, spec, AllSucceed) == (r - Named(spec.remove)) + Named(spec.add)
  {
    AppliedWithFailures(r, spec, AllSucceed);
    SucceededAll(spec.remove);
    SucceededAll(spec.add);
  }

  /** Applying the same specification twice gives the same role set as once. */
  lemma ApplyIdempotent(r: set<RoleId>, spec: RoleSpec)
    ensures Applied(Applied(r, spec, AllSucceed), spec, AllSucceed) == Applied(r, spec, AllSucceed)
  {
    AppliedNoFailure(r, spec);
    AppliedNoFailure(Applied(r, spec, AllSucceed), spec);
  }

  /** Removes run before adds: a role both removed and added ends up held. */
  lemma AddWinsOverRemove(r: set<RoleId>, spec: RoleSpec, role: RoleId)
    requires role in Named(spec.add) && role in Named(spec.remove)
    ensures role in Applied(r, spec, AllSucceed)
  {
    AppliedNoFailure(r, spec);
  }

  /** `applyRoles`: false, with no role change, when the guild is not in the
      client's cache or the member cannot be fetched; otherwise both loops run
      to the end, every failing call is skipped, and the result is true. */
  method ApplyRoles(guildFound: bool, member: Member?, spec: RoleSpec, out: Outcomes)
    returns (ok: bool)
    modifies member
    ensures ok == (guildFound && member != null)
    ensures member != null ==>
      member.roles == if ok then Applied(old(member.roles), spec, out) else old(member.roles)
  {
    if !guildFound || member == null {
      return false;
    }
    var i := 0;
    while i < |spec.remove|
      invariant 0 <= i <= |spec.remove|
      invariant member.roles == AfterRemoves(old(member.roles), spec.remove[..i], out.failedRemoves)
    {
      assert spec.remove[..i + 1][..i] == spec.remove[..i];
      var roleId := spec.remove[i];
      if roleId != "" && i !in out.failedRemoves {
        member.roles := member.roles - {roleId};
      }
      i := i + 1;
    }
    assert spec.remove[..i] == spec.remove;
    ghost var removed := member.roles;
    var j := 0;
    while j < |spec.add|
      invariant 0 <= j <= |spec.add|
      invariant member.roles == AfterAdds(removed, spec.add[..j], out.failedAdds)
    {
      assert spec.add[..j + 1][..j] == spec.add[..j];
      var roleId := spec.add[j];
      if roleId != "" && j !in out.failedAdds {
        member.roles := member.roles + {roleId};
      }
      j := j + 1;
    }
    assert spec.add[..j] == spec.add;
    return true;
  }
}
