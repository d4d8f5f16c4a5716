/** Who can bring about what: every change of a server's tables in any step, and the rights it took. */
module GuildRights {
  import opened Options
  import opened Integers
  import opened Permissions
  import opened Guilds
  import opened RolePositions

  /**
   * A member of a server that goes on existing ceases to be one only by leaving,
   * or kicked or banned by a permitted member that outranks it; the owner never does.
   */
  lemma LosesMembership(db: Db, step: Step, s: Sid, u: User)
    requires IsMember(db, s, u) && s in Apply(db, step).servers && !IsMember(Apply(db, step), s, u)
    ensures !Owns(db, s, u)
    ensures || step == StepLeave(u, s)
            || (step.StepKick? && step.server == s && step.target == u
                && Permitted(db, s, step.actor, KICK_MEMBERS) && Outranks(db, s, step.actor, u))
            || (step.StepBan? && step.server == s && step.target == u
                && Permitted(db, s, step.actor, BAN_MEMBERS) && Outranks(db, s, step.actor, u))
  {
    if !WritesMembers(step) {
      OthersKeepMembers(db, step, s);
    }
  }

  /** A user joins an existing server only by an invite that is neither expired nor used up, and unless banned. */
  lemma GainsMembership(db: Db, step: Step, s: Sid, u: User)
    requires s in db.servers && !IsMember(db, s, u) && IsMember(Apply(db, step), s, u)
    ensures step.StepUseInvite? && step.actor == u && step.code in db.invites
    ensures var i := db.invites[step.code];
            i.server == s && !Expired(i, step.now) && !UsedUp(i) && u !in db.servers[s].bans
  {
    if !WritesMembers(step) {
      OthersKeepMembers(db, step, s);
    }
  }

  /** A ban comes from a permitted member that outranks its target, and goes with the same permission. */
  lemma BanChanges(db: Db, step: Step, s: Sid, u: User)
    requires s in db.servers && s in Apply(db, step).servers
    requires u in db.servers[s].bans <==> u !in Apply(db, step).servers[s].bans
    ensures (step.StepBan? || step.StepUnban?) && step.server == s && step.target == u
            && Permitted(db, s, step.actor, BAN_MEMBERS)
    ensures u in Apply(db, step).servers[s].bans ==> step.StepBan? && !Owns(db, s, u) && Outranks(db, s, step.actor, u)
  {
    if !WritesMembers(step) {
      OthersKeepMembers(db, step, s);
    }
  }

  /** Only the owner hands a server over, and only to a member. */
  lemma OwnerChanges(db: Db, step: Step, s: Sid)
    requires s in db.servers && s in Apply(db, step).servers
    requires Apply(db, step).servers[s].owner != db.servers[s].owner
    ensures step.actor == db.servers[s].owner && IsMember(db, s, Apply(db, step).servers[s].owner)
  {
    if !step.StepTransfer? {
      OwnerMovesByTransfer(db, step, s);
    }
  }

  lemma OwnerMovesByTransfer(db: Db, step: Step, s: Sid)
    requires !step.StepTransfer? && s in db.servers && s in Apply(db, step).servers
    ensures Apply(db, step).servers[s].owner == db.servers[s].owner
  {
    if WritesMembers(step) {
      MemberStepsKeepOwner(db, step, s);
    } else {
      RolesLeaveServers(db, step);
    }
  }

  // ---- Roles

  lemma {:induction false} NoObjection(db: Db, s: Sid, highest: int, updates: seq<Placement>, i: nat)
    requires Objection(db, s, highest, updates) == Done && i < |updates|
    ensures var r := updates[i].role;
            r in db.roles && db.roles[r].server == s && db.roles[r].position < highest
  {
    if i > 0 {
      NoObjection(db, s, highest, updates[1..], i - 1);
    }
  }

  lemma {:induction false} UnnamedRoleStays(db: Db, s: Sid, updates: seq<Placement>, r: Rid)
    requires r in db.roles && forall i | 0 <= i < |updates| :: updates[i].role != r
    ensures r in PlaceRoles(db, s, updates).roles && PlaceRoles(db, s, updates).roles[r] == db.roles[r]
    decreases |updates|
  {
    if updates != [] {
      var x := updates[0].role;
      var db' := if x in db.roles && db.roles[x].server == s
                 then db.(roles := db.roles[x := db.roles[x].(position := updates[0].position)]) else db;
      UnnamedRoleStays(db', s, updates[1..], r);
    }
  }

  /** A role of the server ends at the position of the last entry that names it. */
  lemma {:induction false} PlacedAtLast(db: Db, s: Sid, updates: seq<Placement>, r: Rid, i: nat)
    requires r in db.roles && db.roles[r].server == s && i < |updates| && updates[i].role == r
    requires forall j | i < j < |updates| :: updates[j].role != r
    ensures r in PlaceRoles(db, s, updates).roles
    ensures PlaceRoles(db, s, updates).roles[r] == db.roles[r].(position := updates[i].position)
    decreases |updates|
  {
    var x, rest := updates[0].role, updates[1..];
    var db' := if x in db.roles && db.roles[x].server == s
               then db.(roles := db.roles[x := db.roles[x].(position := updates[0].position)]) else db;
    assert forall j | 0 <= j < |rest| :: rest[j] == updates[j + 1];
    if i == 0 {
      UnnamedRoleStays(db', s, rest, r);
    } else {
      PlacedAtLast(db', s, rest, r, i - 1);
    }
  }

  lemma ReorderTouches(db: Db, actor: User, s: Sid, updates: seq<Placement>, r: Rid)
    requires r in db.roles
    requires var roles := ReorderRoles(db, actor, s, updates).0.roles; r in roles ==> roles[r] != db.roles[r]
    ensures Permitted(db, s, actor, MANAGE_ROLES) && BelowActor(db.roles[r].position, ActorHighest(db, s, actor))
  {
    if forall i | 0 <= i < |updates| :: updates[i].role != r {
      UnnamedRoleStays(db, s, updates, r);
    } else {
      var i :| 0 <= i < |updates| && updates[i].role == r;
      var highest := ActorHighest(db, s, actor);
      if highest != I32_MAX && Objection(db, s, highest, updates) == Done {
        NoObjection(db, s, highest, updates, i);
      }
    }
  }

  /**
   * A role of a server that goes on existing is changed or removed only by a
   * member that may manage roles and owns the server, stands above the role or
   * holds a role at the greatest position, and never the default role removed.
   */
  lemma RoleTouched(db: Db, step: Step, r: Rid)
    requires Inv(db) && r in db.roles && db.roles[r].server in Apply(db, step).servers
    requires r in Apply(db, step).roles ==> Apply(db, step).roles[r] != db.roles[r]
    ensures var s := db.roles[r].server;
            && Permitted(db, s, step.actor, MANAGE_ROLES)
            && (Owns(db, s, step.actor) || AtTop(db, s, step.actor)
                || db.roles[r].position < Highest(db, HeldRows(db, s, step.actor)))
            && (r !in Apply(db, step).roles ==> step.StepDeleteRole? && r != s)
  {
    TouchableIsBelow(db, db.roles[r].server, step.actor, db.roles[r].position);
    if step.StepReorder? {
      ReorderedRole(db, step, r);
    } else if step.StepUpdateMember? {
      GiveRolesKeepsRoles(DropRoles(db, step.server, step.target), step.server, step.target, step.ids);
    } else if step.StepUpdateRole? || step.StepDeleteRole? {
      ChangedRole(db, step, r);
    } else {
      OthersLeaveRole(db, step, r);
    }
  }

  lemma ChangedRole(db: Db, step: Step, r: Rid)
    requires Inv(db) && (step.StepUpdateRole? || step.StepDeleteRole?) && r in db.roles
    requires r in Apply(db, step).roles ==> Apply(db, step).roles[r] != db.roles[r]
    ensures step.server == db.roles[r].server && Permitted(db, step.server, step.actor, MANAGE_ROLES)
            && BelowActor(db.roles[r].position, ActorHighest(db, step.server, step.actor))
    ensures r !in Apply(db, step).roles ==> step.StepDeleteRole? && r != step.server
  {
    if step.StepUpdateRole? {
      UpdatedRole(db, step.actor, step.server, step.role, step.newPerms, step.position, r);
    } else {
      DeletedRole(db, step.actor, step.server, step.role, r);
    }
  }

  lemma UpdatedRole(db: Db, actor: User, s: Sid, role: Rid, perms: Option<Word>, position: Option<I32>, r: Rid)
    requires r in db.roles
    requires var roles := UpdateRole(db, actor, s, role, perms, position).0.roles; r in roles ==> roles[r] != db.roles[r]
    ensures r in UpdateRole(db, actor, s, role, perms, position).0.roles && s == db.roles[r].server
    ensures Permitted(db, s, actor, MANAGE_ROLES) && BelowActor(db.roles[r].position, ActorHighest(db, s, actor))
  {
  }

  lemma DeletedRole(db: Db, actor: User, s: Sid, role: Rid, r: Rid)
    requires Inv(db) && r in db.roles
    requires var roles := DeleteRole(db, actor, s, role).0.roles; r in roles ==> roles[r] != db.roles[r]
    ensures r != s == db.roles[r].server
    ensures Permitted(db, s, actor, MANAGE_ROLES) && BelowActor(db.roles[r].position, ActorHighest(db, s, actor))
  {
    assert RoleOk(db, r, db.roles[r]);
  }

  lemma OthersLeaveRole(db: Db, step: Step, r: Rid)
    requires r in db.roles && db.roles[r].server in Apply(db, step).servers
    requires !step.StepReorder? && !step.StepUpdateMember? && !step.StepUpdateRole? && !step.StepDeleteRole?
    ensures r in Apply(db, step).roles && Apply(db, step).roles[r] == db.roles[r]
  {
  }

  lemma ReorderedRole(db: Db, step: Step, r: Rid)
    requires step.StepReorder? && r in db.roles
    requires r in Apply(db, step).roles ==> Apply(db, step).roles[r] != db.roles[r]
    ensures r in Apply(db, step).roles && step.server == db.roles[r].server
    ensures Permitted(db, step.server, step.actor, MANAGE_ROLES)
            && BelowActor(db.roles[r].position, ActorHighest(db, step.server, step.actor))
  {
    ReorderTouches(db, step.actor, step.server, step.updates, r);
    PlaceRolesKeepsPerms(db, step.server, step.updates);
    if db.roles[r].server != step.server {
      OtherServersRole(db, step.server, step.updates, r);
    }
  }

  lemma {:induction false} OtherServersRole(db: Db, s: Sid, updates: seq<Placement>, r: Rid)
    requires r in db.roles && db.roles[r].server != s
    ensures r in PlaceRoles(db, s, updates).roles && PlaceRoles(db, s, updates).roles[r] == db.roles[r]
    decreases |updates|
  {
    if updates != [] {
      var x := updates[0].role;
      var db' := if x in db.roles && db.roles[x].server == s
                 then db.(roles := db.roles[x := db.roles[x].(position := updates[0].position)]) else db;
      OtherServersRole(db', s, updates[1..], r);
    }
  }
}
