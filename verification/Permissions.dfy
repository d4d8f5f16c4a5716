/**
 * Permission words and the computation of a member's effective permissions.
 * A 64-bit word is the set of the positions of its one bits: `|`, `&` and `& !`
 * are union, intersection and difference.
 */
module Permissions {
  import opened Options

  type Word = w: set<nat> | forall i | i in w :: i < 64

  const ADMINISTRATOR: nat := 0
  const MANAGE_ROLES: nat := 3
  const KICK_MEMBERS: nat := 5
  const BAN_MEMBERS: nat := 6
  const CREATE_INVITE: nat := 7

  predicate IsKnown(flag: nat) {
    flag < 38
  }

  /** The 38 known flags, of the 64 bits of a word. */
  function All(): Word {
    set i: nat | i < 64 && IsKnown(i)
  }

  /** View, send, history, embed, attach, react, emojis, connect, speak, voice activity, nickname, invite. */
  function DefaultEveryone(): Word {
    {12, 14, 19, 17, 18, 22, 21, 28, 29, 33, 8, 7}
  }

  /** `from_bits_truncate` */
  function Truncate(bits: Word): Word {
    bits * All()
  }

  datatype RoleBits = RoleBits(id: nat, bits: Word)

  datatype Override = Override(targetId: nat, targetType: nat, allow: Word, deny: Word)

  /** The first entry for a role id. */
  function FindRole(roles: seq<RoleBits>, id: nat): Option<Word> {
    if roles == [] then None
    else if roles[0].id == id then Some(roles[0].bits)
    else FindRole(roles[1..], id)
  }

  /** The first override for a target. */
  function FindOverride(overrides: seq<Override>, id: nat, targetType: nat): Option<Override> {
    if overrides == [] then None
    else if overrides[0].targetId == id && overrides[0].targetType == targetType then Some(overrides[0])
    else FindOverride(overrides[1..], id, targetType)
  }

  /** The entry found is the first for its role, and none is found only if there is none. */
  lemma {:induction false} FindRoleIsFirst(roles: seq<RoleBits>, id: nat)
    ensures match FindRole(roles, id)
            case None => forall i | 0 <= i < |roles| :: roles[i].id != id
            case Some(bits) => exists i :: 0 <= i < |roles| && roles[i] == RoleBits(id, bits)
                                           && forall j | 0 <= j < i :: roles[j].id != id
  {
    if roles != [] && roles[0].id != id {
      var rest := roles[1..];
      assert forall j | 0 < j < |roles| :: roles[j] == rest[j - 1];
      FindRoleIsFirst(rest, id);
      if FindRole(rest, id).Some? {
        var i :| 0 <= i < |rest| && rest[i] == RoleBits(id, FindRole(rest, id).value)
                 && forall j | 0 <= j < i :: rest[j].id != id;
        assert roles[i + 1] == rest[i];
      }
    }
  }

  predicate IsFor(o: Override, id: nat, targetType: nat) {
    o.targetId == id && o.targetType == targetType
  }

  lemma {:induction false} FindOverrideIsFirst(overrides: seq<Override>, id: nat, targetType: nat)
    ensures match FindOverride(overrides, id, targetType)
            case None => forall i | 0 <= i < |overrides| :: !IsFor(overrides[i], id, targetType)
            case Some(o) => exists i :: 0 <= i < |overrides| && overrides[i] == o && IsFor(o, id, targetType)
                                        && forall j | 0 <= j < i :: !IsFor(overrides[j], id, targetType)
  {
    if overrides != [] && !IsFor(overrides[0], id, targetType) {
      var rest := overrides[1..];
      assert forall j | 0 < j < |overrides| :: overrides[j] == rest[j - 1];
      FindOverrideIsFirst(rest, id, targetType);
      if FindOverride(rest, id, targetType).Some? {
        var i :| 0 <= i < |rest| && rest[i] == FindOverride(rest, id, targetType).value
                 && forall j | 0 <= j < i :: !IsFor(rest[j], id, targetType);
        assert overrides[i + 1] == rest[i];
      }
    }
  }

  // ---- The rule for one flag

  predicate Allows(overrides: seq<Override>, id: nat, targetType: nat, f: nat) {
    FindOverride(overrides, id, targetType).Some? && f in FindOverride(overrides, id, targetType).value.allow
  }

  predicate Denies(overrides: seq<Override>, id: nat, targetType: nat, f: nat) {
    FindOverride(overrides, id, targetType).Some? && f in FindOverride(overrides, id, targetType).value.deny
  }

  predicate RoleGrants(roles: seq<RoleBits>, id: nat, f: nat) {
    FindRole(roles, id).Some? && f in FindRole(roles, id).value
  }

  /** A flag that a member has before overrides. */
  ghost predicate BaseHas(ids: seq<nat>, everyone: Word, roles: seq<RoleBits>, f: nat) {
    f in everyone || exists id | id in ids :: RoleGrants(roles, id, f)
  }

  /**
   * The member's own override beats those of the roles, these beat the override
   * of @everyone, and that beats the roles' bits; on each level allowing beats
   * denying, and the order of the roles plays no part.
   */
  ghost predicate Decides(ids: seq<nat>, everyone: Word, roles: seq<RoleBits>, overrides: seq<Override>,
                          member: nat, server: nat, f: nat) {
    if Allows(overrides, member, 1, f) then true
    else if Denies(overrides, member, 1, f) then false
    else if exists id | id in ids :: Allows(overrides, id, 0, f) then true
    else if exists id | id in ids :: Denies(overrides, id, 0, f) then false
    else if Allows(overrides, server, 0, f) then true
    else if Denies(overrides, server, 0, f) then false
    else BaseHas(ids, everyone, roles, f)
  }

  ghost predicate Granted(isOwner: bool, ids: seq<nat>, everyone: Word, roles: seq<RoleBits>,
                          overrides: Option<seq<Override>>, member: nat, server: nat, f: nat) {
    || isOwner
    || BaseHas(ids, everyone, roles, ADMINISTRATOR)
    || (if overrides.None? then BaseHas(ids, everyone, roles, f)
        else Decides(ids, everyone, roles, overrides.value, member, server, f))
  }

  /** A member's effective permissions, flag by flag. */
  ghost function Effective(isOwner: bool, ids: seq<nat>, everyone: Word, roles: seq<RoleBits>,
                           overrides: Option<seq<Override>>, member: nat, server: nat): Word {
    set f | f in All() && Granted(isOwner, ids, everyone, roles, overrides, member, server, f)
  }

  /** Overrides carry known flags only; the type of their words is the flag set. */
  ghost predicate KnownOverrides(overrides: Option<seq<Override>>) {
    overrides.Some? ==> forall o | o in overrides.value :: o.allow <= All() && o.deny <= All()
  }

  lemma {:induction false} FoundIsMember(overrides: seq<Override>, id: nat, targetType: nat)
    ensures FindOverride(overrides, id, targetType).Some? ==> FindOverride(overrides, id, targetType).value in overrides
  {
    if overrides != [] {
      FoundIsMember(overrides[1..], id, targetType);
    }
  }

  // ---- The computation

  /** The roles' bits, one role after the other. */
  method BasePermissions(ids: seq<nat>, everyone: Word, roles: seq<RoleBits>) returns (permissions: Word)
    ensures forall f :: f in permissions <==> f in All() && BaseHas(ids, everyone, roles, f)
  {
    permissions := Truncate(everyone);
    for i := 0 to |ids|
      invariant forall f :: f in permissions
                       <==> f in All() && (f in everyone || exists j | 0 <= j < i :: RoleGrants(roles, ids[j], f))
    {
      var found := FindRole(roles, ids[i]);
      if found.Some? {
        permissions := permissions + Truncate(found.value);
      }
    }
  }

  /** The overrides of all the member's roles, gathered. */
  method GatherOverrides(ids: seq<nat>, overrides: seq<Override>) returns (allow: Word, deny: Word)
    ensures forall f :: f in allow <==> exists id | id in ids :: Allows(overrides, id, 0, f)
    ensures forall f :: f in deny <==> exists id | id in ids :: Denies(overrides, id, 0, f)
  {
    allow, deny := {}, {};
    for i := 0 to |ids|
      invariant forall f :: f in allow <==> exists j | 0 <= j < i :: Allows(overrides, ids[j], 0, f)
      invariant forall f :: f in deny <==> exists j | 0 <= j < i :: Denies(overrides, ids[j], 0, f)
    {
      var found := FindOverride(overrides, ids[i], 0);
      if found.Some? {
        allow := allow + found.value.allow;
        deny := deny + found.value.deny;
      }
    }
  }

  method ComputePermissions(isOwner: bool, memberRoleIds: seq<nat>, everyone: Word, roles: seq<RoleBits>,
                            overrides: Option<seq<Override>>, member: nat, server: nat) returns (permissions: Word)
    requires KnownOverrides(overrides)
    ensures permissions == Effective(isOwner, memberRoleIds, everyone, roles, overrides, member, server)
  {
    if isOwner {
      return All();
    }
    permissions := BasePermissions(memberRoleIds, everyone, roles);
    if ADMINISTRATOR in permissions {
      return All();
    }
    if overrides.Some? {
      var ovs := overrides.value;
      FoundIsMember(ovs, server, 0);
      FoundIsMember(ovs, member, 1);
      forall id { FoundIsMember(ovs, id, 0); }
      var ov := FindOverride(ovs, server, 0);
      if ov.Some? {
        permissions := permissions - ov.value.deny;
        permissions := permissions + ov.value.allow;
      }
      var roleAllow, roleDeny := GatherOverrides(memberRoleIds, ovs);
      permissions := permissions - roleDeny;
      permissions := permissions + roleAllow;
      ov := FindOverride(ovs, member, 1);
      if ov.Some? {
        permissions := permissions - ov.value.deny;
        permissions := permissions + ov.value.allow;
      }
    }
  }

  /** Neither the order of a member's role ids nor their repetition changes anything. */
  lemma RoleOrderIrrelevant(isOwner: bool, ids: seq<nat>, ids': seq<nat>, everyone: Word, roles: seq<RoleBits>,
                            overrides: Option<seq<Override>>, member: nat, server: nat)
    requires forall id :: id in ids <==> id in ids'
    ensures Effective(isOwner, ids, everyone, roles, overrides, member, server)
         == Effective(isOwner, ids', everyone, roles, overrides, member, server)
  {
    forall f | f in All()
      ensures Granted(isOwner, ids, everyone, roles, overrides, member, server, f)
         <==> Granted(isOwner, ids', everyone, roles, overrides, member, server, f)
    {
      assert BaseHas(ids, everyone, roles, f) == BaseHas(ids', everyone, roles, f);
      assert BaseHas(ids, everyone, roles, ADMINISTRATOR) == BaseHas(ids', everyone, roles, ADMINISTRATOR);
    }
  }

  /** Setting an override strips its ADMINISTRATOR bit. */
  ghost predicate Stripped(overrides: Option<seq<Override>>) {
    overrides.Some? ==> forall o | o in overrides.value :: ADMINISTRATOR !in o.allow && ADMINISTRATOR !in o.deny
  }

  /** With stripped overrides a member holds ADMINISTRATOR exactly if it holds everything. */
  lemma AdministratorIsAll(isOwner: bool, ids: seq<nat>, everyone: Word, roles: seq<RoleBits>,
                           overrides: Option<seq<Override>>, member: nat, server: nat)
    requires Stripped(overrides)
    ensures var e := Effective(isOwner, ids, everyone, roles, overrides, member, server);
            ADMINISTRATOR in e <==> e == All()
  {
    if overrides.Some? {
      FoundIsMember(overrides.value, server, 0);
      FoundIsMember(overrides.value, member, 1);
      forall id { FoundIsMember(overrides.value, id, 0); }
    }
    var e := Effective(isOwner, ids, everyone, roles, overrides, member, server);
    assert ADMINISTRATOR in All();
    if ADMINISTRATOR in e {
      assert isOwner || BaseHas(ids, everyone, roles, ADMINISTRATOR);
      assert forall f | f in All() :: f in e;
    }
  }

  /**
   * `set_channel_override` once its caller may manage roles: the ADMINISTRATOR
   * bit is dropped, and bits the caller does not hold are refused. A target
   * has one override, whatever its type.
   */
  function SetOverride(overrides: seq<Override>, ov: Override, actor: Word): Option<seq<Override>> {
    var allow, deny := ov.allow - {ADMINISTRATOR}, ov.deny - {ADMINISTRATOR};
    if !(allow + deny <= actor) then None
    else Some(Upsert(overrides, ov.(allow := allow, deny := deny)))
  }

  function Upsert(overrides: seq<Override>, ov: Override): seq<Override> {
    if overrides == [] then [ov]
    else if overrides[0].targetId == ov.targetId then [ov] + overrides[1..]
    else [overrides[0]] + Upsert(overrides[1..], ov)
  }

  lemma {:induction false} UpsertMembers(overrides: seq<Override>, ov: Override)
    ensures forall o | o in Upsert(overrides, ov) :: o == ov || o in overrides
  {
    if overrides != [] && overrides[0].targetId != ov.targetId {
      UpsertMembers(overrides[1..], ov);
    }
  }

  /** One override for a target, as the table's key has it. */
  ghost predicate OnePerTarget(overrides: seq<Override>) {
    forall i, j | 0 <= i < j < |overrides| :: overrides[i].targetId != overrides[j].targetId
  }

  lemma {:induction false} NoneFound(overrides: seq<Override>, id: nat, targetType: nat)
    requires forall o | o in overrides :: o.targetId != id
    ensures FindOverride(overrides, id, targetType) == None
  {
    if overrides != [] {
      assert overrides[0] in overrides;
      NoneFound(overrides[1..], id, targetType);
    }
  }

  lemma {:induction false} UpsertKeepsOne(overrides: seq<Override>, ov: Override)
    requires OnePerTarget(overrides)
    ensures OnePerTarget(Upsert(overrides, ov))
    ensures forall o | o in Upsert(overrides, ov) :: o == ov || (o in overrides && o.targetId != ov.targetId)
  {
    if overrides != [] {
      var rest := overrides[1..];
      assert overrides == [overrides[0]] + rest;
      assert forall i | 0 <= i < |rest| :: rest[i] == overrides[i + 1];
      OthersElsewhere(overrides);
      if overrides[0].targetId != ov.targetId {
        UpsertKeepsOne(rest, ov);
        var more := Upsert(rest, ov);
        assert forall i | 0 <= i < |more| :: more[i] in more;
      }
    }
  }

  lemma {:induction false} UpsertFinds(overrides: seq<Override>, ov: Override, id: nat, targetType: nat)
    requires OnePerTarget(overrides)
    ensures FindOverride(Upsert(overrides, ov), id, targetType)
         == if id != ov.targetId then FindOverride(overrides, id, targetType)
            else if targetType == ov.targetType then Some(ov) else None
  {
    if overrides != [] {
      var rest := overrides[1..];
      if overrides[0].targetId == ov.targetId {
        OthersElsewhere(overrides);
        NoneFoundFor(rest, ov, id, targetType);
      } else {
        assert forall i | 0 <= i < |rest| :: rest[i] == overrides[i + 1];
        UpsertFinds(rest, ov, id, targetType);
      }
    }
  }

  lemma OthersElsewhere(overrides: seq<Override>)
    requires OnePerTarget(overrides) && overrides != []
    ensures forall o | o in overrides[1..] :: o.targetId != overrides[0].targetId
  {
  }

  lemma NoneFoundFor(rest: seq<Override>, ov: Override, id: nat, targetType: nat)
    requires forall o | o in rest :: o.targetId != ov.targetId
    ensures id == ov.targetId ==> FindOverride(rest, id, targetType) == None
  {
    if id == ov.targetId {
      NoneFound(rest, id, targetType);
    }
  }

  /**
   * Setting an override is refused exactly if it names a bit other than
   * ADMINISTRATOR that the actor does not hold. Otherwise the target's only
   * override is the one set, without that bit, and every other target's is as before.
   */
  lemma SetOverrideStores(overrides: seq<Override>, ov: Override, actor: Word, id: nat, targetType: nat)
    requires OnePerTarget(overrides)
    ensures var r := SetOverride(overrides, ov, actor);
            && (r.None? <==> exists f :: (f in ov.allow || f in ov.deny) && f != ADMINISTRATOR && f !in actor)
            && (r.Some? ==>
                  && OnePerTarget(r.value)
                  && FindOverride(r.value, id, targetType)
                     == if id != ov.targetId then FindOverride(overrides, id, targetType)
                        else if targetType != ov.targetType then None
                        else Some(Override(id, targetType, ov.allow - {ADMINISTRATOR}, ov.deny - {ADMINISTRATOR})))
  {
    var allow, deny := ov.allow - {ADMINISTRATOR}, ov.deny - {ADMINISTRATOR};
    UpsertFinds(overrides, ov.(allow := allow, deny := deny), id, targetType);
    UpsertKeepsOne(overrides, ov.(allow := allow, deny := deny));
    assert forall f :: f in allow + deny <==> (f in ov.allow || f in ov.deny) && f != ADMINISTRATOR;
  }

  /** So every channel whose overrides were set this way keeps them stripped and known. */
  lemma SetOverrideKeepsStripped(overrides: seq<Override>, ov: Override, actor: Word)
    requires Stripped(Some(overrides)) && KnownOverrides(Some(overrides)) && actor <= All()
    ensures var r := SetOverride(overrides, ov, actor); r.Some? ==> Stripped(r) && KnownOverrides(r)
  {
    var allow, deny := ov.allow - {ADMINISTRATOR}, ov.deny - {ADMINISTRATOR};
    UpsertMembers(overrides, ov.(allow := allow, deny := deny));
    if allow + deny <= actor {
      assert forall f | f in allow || f in deny :: f in allow + deny && f in All();
    }
  }

  /** Stripping is needed: an override that allows ADMINISTRATOR alone grants no more than that. */
  lemma UnstrippedAdministrator(member: nat, server: nat)
    ensures Effective(false, [], {}, [], Some([Override(member, 1, {ADMINISTRATOR}, {})]), member, server)
         == {ADMINISTRATOR} != All()
  {
    assert 1 in All() && ADMINISTRATOR in All();
    var ov := Override(member, 1, {ADMINISTRATOR}, {});
    assert FindOverride([ov], member, 1) == Some(ov);
    assert FindOverride([ov], server, 0) == None;
  }

  // ---- Hierarchy

  function FindPosition(roles: seq<(nat, int)>, id: nat): Option<int> {
    if roles == [] then None
    else if roles[0].0 == id then Some(roles[0].1)
    else FindPosition(roles[1..], id)
  }

  function Best(ids: seq<nat>, roles: seq<(nat, int)>): (best: Option<int>)
    ensures best.None? <==> forall id | id in ids :: FindPosition(roles, id).None?
    ensures best.Some? ==> forall id | id in ids && FindPosition(roles, id).Some? :: FindPosition(roles, id).value <= best.value
    ensures best.Some? ==> exists id | id in ids :: FindPosition(roles, id) == best
  {
    if ids == [] then None
    else
      var here, rest := FindPosition(roles, ids[0]), Best(ids[1..], roles);
      assert ids[0] in ids && forall id :: id in ids <==> id == ids[0] || id in ids[1..];
      if here.None? then rest
      else if rest.Some? && rest.value > here.value then rest
      else here
  }

  /** The highest position of a member's roles, 0 for one without any. */
  function HighestRolePosition(ids: seq<nat>, roles: seq<(nat, int)>): (highest: int)
    ensures (exists id | id in ids :: FindPosition(roles, id) == Some(highest))
         || (highest == 0 && forall id | id in ids :: FindPosition(roles, id).None?)
    ensures forall id | id in ids && FindPosition(roles, id).Some? :: FindPosition(roles, id).value <= highest
  {
    var best := Best(ids, roles);
    if best.None? then 0 else best.value
  }
}
