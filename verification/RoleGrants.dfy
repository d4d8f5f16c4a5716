/**
 * Where rights come from: every step that gives a user a role or a permission,
 * and the rights behind it. Role rows name a server of their own, but the
 * permission query does not look at it, so a role can be given in a server it
 * does not belong to.
 */
module RoleGrants {
  import opened Options
  import opened Integers
  import opened Permissions
  import opened Guilds
  import opened GuildRights

  /** What `update_member` asks before it writes roles. */
  ghost predicate MayAssign(db: Db, s: Sid, actor: User, target: User) {
    Permitted(db, s, actor, MANAGE_ROLES) && Outranks(db, s, actor, target)
  }

  /** The ids the loop gets to write: it stops at the first that is no role. */
  predicate Reached(roles: map<Rid, Role>, ids: seq<Rid>, r: Rid) {
    ids != [] && ids[0] in roles && (ids[0] == r || Reached(roles, ids[1..], r))
  }

  lemma {:induction false} ReachedIsGiven(roles: map<Rid, Role>, ids: seq<Rid>, r: Rid)
    requires Reached(roles, ids, r)
    ensures r in ids && r in roles
  {
    if ids[0] != r {
      ReachedIsGiven(roles, ids[1..], r);
    }
  }

  lemma {:induction false} GivenRows(db: Db, s: Sid, target: User, ids: seq<Rid>, h: (Sid, User, Rid))
    ensures h in GiveRoles(db, s, target, ids).0.held
       <==> h in db.held || (h.0 == s && h.1 == target && IsMember(db, s, target) && Reached(db.roles, ids, h.2))
    decreases |ids|
  {
    if ids != [] && ids[0] in db.roles && IsMember(db, s, target) {
      GivenRows(db.(held := db.held + {(s, target, ids[0])}), s, target, ids[1..], h);
    }
  }

  /** The role rows after an assignment, row by row. */
  lemma RowsAfter(db: Db, actor: User, s: Sid, target: User, ids: seq<Rid>, h: (Sid, User, Rid))
    ensures var db' := UpdateMember(db, actor, s, target, ids).0;
            db'.roles == db.roles && db'.servers == db.servers
            && (h in db'.held
                <==> if !MayAssign(db, s, actor, target) || h.0 != s || h.1 != target then h in db.held
                     else (h in db.held && h.2 == s) || (IsMember(db, s, target) && Reached(db.roles, ids, h.2)))
  {
    GivenRows(DropRoles(db, s, target), s, target, ids, h);
    GiveRolesKeepsRoles(DropRoles(db, s, target), s, target, ids);
  }

  // ---- Gaining a role

  predicate AddsRows(step: Step) {
    step.StepCreateServer? || step.StepUseInvite? || step.StepUpdateMember? || step.StepCreateRole?
  }

  lemma OthersGiveNoRole(db: Db, step: Step, s: Sid, u: User, r: Rid)
    requires !AddsRows(step) && r in RoleRows(Apply(db, step), s, u)
    ensures r in RoleRows(db, s, u)
  {
    if step.StepReorder? {
      PlaceRolesKeepsPerms(db, step.server, step.updates);
      PlaceRolesKeepsServers(db, step.server, step.updates);
    }
    assert Apply(db, step).held <= db.held;
  }

  lemma JoinGivesNoRole(db: Db, step: Step, s: Sid, u: User, r: Rid)
    requires Inv(db) && step.StepUseInvite? && r in RoleRows(Apply(db, step), s, u)
    ensures r in RoleRows(db, s, u)
  {
    var db' := Apply(db, step);
    assert RoleOk(db, r, db.roles[r]);
    if HasRow(db', u, r) && !db.roles[r].isDefault {
      var h :| h in db'.held && h.1 == u && h.2 == r;
      assert h in db.held;
    }
  }

  lemma NewRoleIsNobodys(db: Db, step: Step, s: Sid, u: User, r: Rid)
    requires Inv(db) && step.StepCreateRole? && r in RoleRows(Apply(db, step), s, u)
    ensures r in RoleRows(db, s, u)
  {
    var db' := Apply(db, step);
    if HasRow(db', u, r) {
      var h :| h in db'.held && h.1 == u && h.2 == r;
      assert h in db.held && HeldOk(db, h);
    }
  }

  lemma NewServersRole(db: Db, step: Step, s: Sid, u: User, r: Rid)
    requires step.StepCreateServer? && r in RoleRows(Apply(db, step), s, u)
    ensures r in RoleRows(db, s, u) || (r == s == step.server && s !in db.servers)
  {
    var db' := Apply(db, step);
    if r != step.server && HasRow(db', u, r) {
      var h :| h in db'.held && h.1 == u && h.2 == r;
      assert h in db.held;
    }
  }

  /** An assignment gives its target a role of a server exactly if the loop gets to it, whatever server that is. */
  lemma AssignGivesIff(db: Db, actor: User, x: Sid, target: User, ids: seq<Rid>, s: Sid, u: User, r: Rid)
    requires Inv(db) && r !in RoleRows(db, s, u)
    ensures r in RoleRows(UpdateMember(db, actor, x, target, ids).0, s, u)
       <==> && u == target && MayAssign(db, x, actor, target) && IsMember(db, x, target)
            && Reached(db.roles, ids, r) && r in db.roles && db.roles[r].server == s
  {
    var db' := UpdateMember(db, actor, x, target, ids).0;
    RowsAfter(db, actor, x, target, ids, (x, target, r));
    if r in RoleRows(db', s, u) {
      var h :| h in db'.held && h.1 == u && h.2 == r;
      RowsAfter(db, actor, x, target, ids, h);
    }
    if u == target && (x, target, r) in db'.held {
      assert HasRow(db', u, r);
    }
  }

  /**
   * In every step, a role of a server that a user did not have comes by an
   * assignment in some server, by one who may assign and outranks the user
   * there, or as the default role of a server just created.
   */
  lemma GainsRole(db: Db, step: Step, s: Sid, u: User, r: Rid)
    requires Inv(db) && r !in RoleRows(db, s, u) && r in RoleRows(Apply(db, step), s, u)
    ensures || (&& step.StepUpdateMember? && step.target == u && MayAssign(db, step.server, step.actor, u)
                && IsMember(db, step.server, u) && Reached(db.roles, step.ids, r)
                && r in step.ids && r in db.roles && db.roles[r].server == s)
            || (step.StepCreateServer? && step.server == s == r && s !in db.servers)
  {
    if step.StepUpdateMember? {
      AssignGivesIff(db, step.actor, step.server, step.target, step.ids, s, u, r);
      ReachedIsGiven(db.roles, step.ids, r);
    } else if step.StepCreateServer? {
      NewServersRole(db, step, s, u, r);
    } else if step.StepUseInvite? {
      JoinGivesNoRole(db, step, s, u, r);
    } else if step.StepCreateRole? {
      NewRoleIsNobodys(db, step, s, u, r);
    } else {
      OthersGiveNoRole(db, step, s, u, r);
    }
  }

  // ---- Roles given in their own server

  /** Every role row names a role of its own server. */
  ghost predicate HeldLocal(db: Db) {
    forall h | h in db.held :: h.2 in db.roles && db.roles[h.2].server == h.0
  }

  /** Every id an assignment gets to write belongs to the server it is made in. */
  ghost predicate GivesOwnRoles(db: Db, step: Step) {
    step.StepUpdateMember? ==> forall r | r in db.roles && Writes(db, step, r) :: db.roles[r].server == step.server
  }

  ghost predicate Writes(db: Db, step: Step, r: Rid)
    requires step.StepUpdateMember?
  {
    && MayAssign(db, step.server, step.actor, step.target) && IsMember(db, step.server, step.target)
    && Reached(db.roles, step.ids, r)
  }

  lemma AssignKeepsLocalIff(db: Db, step: Step)
    requires HeldLocal(db) && step.StepUpdateMember?
    ensures HeldLocal(Apply(db, step)) <==> GivesOwnRoles(db, step)
  {
    var db', s, u := Apply(db, step), step.server, step.target;
    forall h: (Sid, User, Rid)
      ensures h in db'.held ==> h in db.held || (h.0 == s && h.1 == u && Writes(db, step, h.2))
      ensures Writes(db, step, h.2) ==> (s, u, h.2) in db'.held
    {
      RowsAfter(db, step.actor, s, u, step.ids, h);
      RowsAfter(db, step.actor, s, u, step.ids, (s, u, h.2));
    }
    RowsAfter(db, step.actor, s, u, step.ids, (s, u, s));
    forall r: Rid | Writes(db, step, r)
      ensures (s, u, r) in db'.held && r in db.roles
    {
      assert (s, u, r).2 == r;
      ReachedIsGiven(db.roles, step.ids, r);
    }
  }

  /** No other step adds a role row outside the role's own server. */
  lemma OthersKeepLocal(db: Db, step: Step)
    requires Inv(db) && HeldLocal(db) && !step.StepUpdateMember?
    ensures HeldLocal(Apply(db, step))
  {
    var db' := Apply(db, step);
    ApplyKeepsInv(db, step);
    forall h | h in db'.held
      ensures h.2 in db'.roles && db'.roles[h.2].server == h.0
    {
      assert HeldOk(db', h);
      RowServer(db, step, h);
    }
  }

  lemma RowServer(db: Db, step: Step, h: (Sid, User, Rid))
    requires Inv(db) && HeldLocal(db) && !step.StepUpdateMember? && h in Apply(db, step).held
    requires h.2 in Apply(db, step).roles
    ensures Apply(db, step).roles[h.2].server == h.0
  {
    if step.StepCreateServer? || step.StepUseInvite? {
      EntryRowServer(db, step, h);
    } else {
      OthersAddNoRows(db, step);
      RoleServerStays(db, step, h.2);
    }
  }

  lemma OthersAddNoRows(db: Db, step: Step)
    requires !step.StepUpdateMember? && !step.StepCreateServer? && !step.StepUseInvite?
    ensures Apply(db, step).held <= db.held
  {
    if step.StepReorder? {
      PlaceRolesKeepsServers(db, step.server, step.updates);
    }
  }

  lemma RoleServerStays(db: Db, step: Step, r: Rid)
    requires !step.StepUpdateMember? && r in db.roles && r in Apply(db, step).roles
    ensures Apply(db, step).roles[r].server == db.roles[r].server
  {
    if step.StepReorder? {
      PlaceRolesKeepsPerms(db, step.server, step.updates);
    }
  }

  lemma EntryRowServer(db: Db, step: Step, h: (Sid, User, Rid))
    requires Inv(db) && HeldLocal(db) && (step.StepCreateServer? || step.StepUseInvite?) && h in Apply(db, step).held
    ensures h.2 in Apply(db, step).roles && Apply(db, step).roles[h.2].server == h.0
  {
    if h !in db.held && step.StepUseInvite? {
      assert h.2 == h.0 && h.0 in db.servers;
    }
  }

  /** Role rows stay in their own servers in a step exactly if an assignment gives only roles of its server. */
  lemma HeldLocalIff(db: Db, step: Step)
    requires Inv(db) && HeldLocal(db)
    ensures HeldLocal(Apply(db, step)) <==> GivesOwnRoles(db, step)
  {
    if step.StepUpdateMember? {
      AssignKeepsLocalIff(db, step);
    } else {
      OthersKeepLocal(db, step);
    }
  }

  ghost predicate AlwaysLocal(db: Db, steps: seq<Step>)
    decreases |steps|
  {
    HeldLocal(db) && (steps == [] || AlwaysLocal(Apply(db, steps[0]), steps[1..]))
  }

  ghost predicate AlwaysOwnRoles(db: Db, steps: seq<Step>)
    decreases |steps|
  {
    steps == [] || (GivesOwnRoles(db, steps[0]) && AlwaysOwnRoles(Apply(db, steps[0]), steps[1..]))
  }

  /** So it is in every run: rows never leave their servers exactly if no assignment gives a role of another. */
  lemma {:induction false} RunLocalIff(db: Db, steps: seq<Step>)
    requires Inv(db) && HeldLocal(db)
    ensures AlwaysLocal(db, steps) <==> AlwaysOwnRoles(db, steps)
    decreases |steps|
  {
    if steps != [] {
      HeldLocalIff(db, steps[0]);
      if GivesOwnRoles(db, steps[0]) {
        ApplyKeepsInv(db, steps[0]);
        RunLocalIff(Apply(db, steps[0]), steps[1..]);
      }
    }
  }

  /** If assignments give only roles of their server, who gives a role in a server holds the rights in that server. */
  lemma GainsRoleByRights(db: Db, step: Step, s: Sid, u: User, r: Rid)
    requires Inv(db) && s in db.servers && GivesOwnRoles(db, step)
    requires r !in RoleRows(db, s, u) && r in RoleRows(Apply(db, step), s, u)
    ensures step.StepUpdateMember? && step.server == s && step.target == u && MayAssign(db, s, step.actor, u)
  {
    GainsRole(db, step, s, u, r);
    assert Writes(db, step, r);
  }

  /**
   * The roles an assignment newly gives are all of the server it is made in,
   * where its rights were asked for, exactly if every id it writes either belongs
   * to that server or gives its target nothing new.
   */
  lemma AssignsInServerIff(db: Db, step: Step)
    requires Inv(db) && step.StepUpdateMember?
    ensures (forall s, u, r | Gained(db, step, s, u, r) :: s == step.server)
       <==> (forall r | r in db.roles && Writes(db, step, r) ::
               db.roles[r].server == step.server || r in RoleRows(db, db.roles[r].server, step.target))
  {
    forall s, u, r
      ensures Gained(db, step, s, u, r) <==> r !in RoleRows(db, s, u) && u == step.target
                                             && r in db.roles && Writes(db, step, r) && db.roles[r].server == s
    {
      GainedIff(db, step, s, u, r);
    }
    forall r | r in db.roles && Writes(db, step, r) && r !in RoleRows(db, db.roles[r].server, step.target)
      ensures Gained(db, step, db.roles[r].server, step.target, r)
    {
    }
  }

  ghost predicate Gained(db: Db, step: Step, s: Sid, u: User, r: Rid) {
    r !in RoleRows(db, s, u) && r in RoleRows(Apply(db, step), s, u)
  }

  lemma GainedIff(db: Db, step: Step, s: Sid, u: User, r: Rid)
    requires Inv(db) && step.StepUpdateMember?
    ensures Gained(db, step, s, u, r) <==> r !in RoleRows(db, s, u) && u == step.target
                                           && r in db.roles && Writes(db, step, r) && db.roles[r].server == s
  {
    if r !in RoleRows(db, s, u) {
      AssignGivesIff(db, step.actor, step.server, step.target, step.ids, s, u, r);
    }
  }

  /**
   * Without that condition no right in a server is needed at all: who owns any
   * other server gives itself there, as a member of its own, a role of this one.
   */
  lemma OwnerElsewhere(db: Db, s: Sid, x: Sid, u: User, r: Rid)
    requires Inv(db) && x in db.servers && db.servers[x].owner == u && x != s
    requires r in db.roles && db.roles[r].server == s && ADMINISTRATOR in db.roles[r].perms
    ensures var step := StepUpdateMember(u, x, u, [r]);
            && PermsOf(Apply(db, step), s, u) == All()
            && !GivesOwnRoles(db, step) && !HeldLocal(Apply(db, step))
  {
    var step := StepUpdateMember(u, x, u, [r]);
    var db' := Apply(db, step);
    assert ADMINISTRATOR in All() && MANAGE_ROLES in All();
    assert IsMember(db, x, u) && Reached(db.roles, [r], r);
    RowsAfter(db, u, x, u, [r], (x, u, r));
    assert Writes(db, step, r);
    assert HasRow(db', u, r) && r in RoleRows(db', s, u);
    assert (x, u, r).2 == r;
  }

  /** User 8, who may do nothing in server 1, owns server 2 and gives itself role 10 of server 1 there. */
  function TwoServers(): Db {
    Db(map[1 := Server(7, 2, {7, 8}, {}), 2 := Server(8, 1, {8}, {})],
       map[1 := Role(1, {}, 0, true), 2 := Role(2, {}, 0, true), 10 := Role(1, {ADMINISTRATOR}, 1, false)],
       {(1, 7, 1), (1, 8, 1), (2, 8, 2)}, map[])
  }

  lemma TwoServersOk()
    ensures Inv(TwoServers()) && HeldLocal(TwoServers())
  {
    TwoMembers();
    TwoRoles();
  }

  lemma TwoMembers()
    ensures var db := TwoServers();
            && (forall s | s in db.servers :: ServerOk(db.servers[s]))
            && (forall h | h in db.held :: HeldOk(db, h) && db.roles[h.2].server == h.0)
  {
    assert |{7, 8}| == 2;
  }

  lemma TwoRoles()
    ensures var db := TwoServers();
            && (forall s | s in db.servers :: s in db.roles && db.roles[s].server == s)
            && (forall r | r in db.roles :: RoleOk(db, r, db.roles[r]))
  {
    assert ADMINISTRATOR in All();
  }

  lemma CrossServerExample()
    ensures Inv(TwoServers()) && HeldLocal(TwoServers()) && PermsOf(TwoServers(), 1, 8) == {}
    ensures PermsOf(Apply(TwoServers(), StepUpdateMember(8, 2, 8, [10])), 1, 8) == All()
  {
    TwoServersOk();
    assert RoleRows(TwoServers(), 1, 8) == {1};
    OwnerElsewhere(TwoServers(), 1, 2, 8, 10);
  }

  // ---- Gaining a permission

  lemma OwnershipGained(db: Db, step: Step, s: Sid, u: User)
    requires s in db.servers && !Owns(db, s, u) && Owns(Apply(db, step), s, u)
    ensures step.StepTransfer? && step.server == s && step.newOwner == u && Owns(db, s, step.actor)
  {
    if !step.StepTransfer? {
      OwnerMovesByTransfer(db, step, s);
    }
  }

  lemma RoleGives(db: Db, s: Sid, u: User, r: Rid, f: nat)
    requires r in RoleRows(db, s, u) && f in All() && (f in db.roles[r].perms || ADMINISTRATOR in db.roles[r].perms)
    ensures f in PermsOf(db, s, u)
  {
    assert ADMINISTRATOR in All();
  }

  lemma PermsCome(db: Db, s: Sid, u: User, f: nat)
    requires f in PermsOf(db, s, u) && !Owns(db, s, u)
    ensures f in All() && exists r | r in RoleRows(db, s, u) :: f in db.roles[r].perms || ADMINISTRATOR in db.roles[r].perms
  {
  }

  lemma RoleBitsGained(db: Db, step: Step, s: Sid, r: Rid)
    requires Inv(db) && r in db.roles && db.roles[r].server == s
    requires r in Apply(db, step).roles && Apply(db, step).roles[r].perms != db.roles[r].perms
    ensures step.StepUpdateRole? && step.server == s && step.role == r && Permitted(db, s, step.actor, MANAGE_ROLES)
    ensures Apply(db, step).roles[r].perms <= PermsOf(db, s, step.actor)
  {
    if step.StepUpdateRole? {
      UpdatedBits(db, step.actor, step.server, step.role, step.newPerms, step.position, r);
    } else {
      OthersKeepBits(db, step, r);
    }
  }

  lemma UpdatedBits(db: Db, actor: User, s: Sid, role: Rid, perms: Option<Word>, position: Option<I32>, r: Rid)
    requires r in db.roles
    requires UpdateRole(db, actor, s, role, perms, position).0.roles[r].perms != db.roles[r].perms
    ensures role == r && db.roles[r].server == s && Permitted(db, s, actor, MANAGE_ROLES)
    ensures UpdateRole(db, actor, s, role, perms, position).0.roles[r].perms <= PermsOf(db, s, actor)
  {
  }

  lemma OthersKeepBits(db: Db, step: Step, r: Rid)
    requires !step.StepUpdateRole? && r in db.roles && r in Apply(db, step).roles
    ensures Apply(db, step).roles[r].perms == db.roles[r].perms
  {
    if step.StepReorder? {
      PlaceRolesKeepsPerms(db, step.server, step.updates);
    } else if step.StepUpdateMember? {
      GiveRolesKeepsRoles(DropRoles(db, step.server, step.target), step.server, step.target, step.ids);
    } else {
      StraightStepsKeepBits(db, step, r);
    }
  }

  lemma StraightStepsKeepBits(db: Db, step: Step, r: Rid)
    requires !step.StepUpdateRole? && !step.StepReorder? && !step.StepUpdateMember?
    requires r in db.roles && r in Apply(db, step).roles
    ensures Apply(db, step).roles[r].perms == db.roles[r].perms
  {
  }

  /**
   * In every step, a permission a user did not have in a server comes with its
   * ownership, handed over by the owner; with a role of the server, assigned by
   * one who may assign in the server the step is made in; or with new bits of a
   * role it has, set by one who may change that role and has those bits.
   */
  lemma GainsPermission(db: Db, step: Step, s: Sid, u: User, f: nat)
    requires Inv(db) && s in db.servers && f !in PermsOf(db, s, u) && f in PermsOf(Apply(db, step), s, u)
    ensures || (step.StepTransfer? && step.server == s && step.newOwner == u && Owns(db, s, step.actor))
            || (&& step.StepUpdateMember? && step.target == u && MayAssign(db, step.server, step.actor, u)
                && exists r | r in step.ids && r in db.roles :: db.roles[r].server == s && r !in RoleRows(db, s, u))
            || (&& step.StepUpdateRole? && step.server == s && step.role in RoleRows(db, s, u)
                && Permitted(db, s, step.actor, MANAGE_ROLES) && Apply(db, step).roles[step.role].perms <= PermsOf(db, s, step.actor))
  {
    var db' := Apply(db, step);
    PermsKnown(db', s, u);
    if Owns(db', s, u) {
      OwnershipGained(db, step, s, u);
    } else {
      PermsCome(db', s, u, f);
      var r :| r in RoleRows(db', s, u) && (f in db'.roles[r].perms || ADMINISTRATOR in db'.roles[r].perms);
      if r !in RoleRows(db, s, u) {
        GainsRole(db, step, s, u, r);
      } else {
        if db'.roles[r].perms == db.roles[r].perms {
          RoleGives(db, s, u, r, f);
        }
        RoleBitsGained(db, step, s, r);
      }
    }
  }
}
