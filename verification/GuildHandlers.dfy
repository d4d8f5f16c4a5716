/**
 * The handlers over the tables, statement by statement. Each contract says who is
 * served, what then changes row by row, and that the invariant is kept; the last
 * clause makes the handler a step of the runs of module Guilds.
 */
module GuildHandlers {
  import opened Options
  import opened Integers
  import opened Permissions
  import opened Guilds
  import opened GuildRights
  import opened RoleGrants

  /** No row of another server changes. */
  predicate OnlyServer(db: Db, db': Db, s: Sid) {
    && s in db.servers && db'.servers.Keys == db.servers.Keys
    && forall x | x in db.servers && x != s :: db'.servers[x] == db.servers[x]
  }

  /** The user's member row and role rows in the server are gone, and the count is that of the rows left. */
  ghost predicate MemberGone(db: Db, db': Db, s: Sid, u: User) {
    && OnlyServer(db, db', s)
    && (forall x :: x in db'.servers[s].members <==> x in db.servers[s].members && x != u)
    && db'.servers[s].memberCount == |db'.servers[s].members| && db'.servers[s].owner == db.servers[s].owner
    && (forall h :: h in db'.held <==> h in db.held && !(h.0 == s && h.1 == u))
  }

  /** The right to kick or ban: the permission, a higher rank, and never the owner. */
  ghost predicate MayRemove(db: Db, s: Sid, actor: User, target: User, flag: nat) {
    Permitted(db, s, actor, flag) && !Owns(db, s, target) && Outranks(db, s, actor, target)
  }

  /** The right to change a role: the permission and a place above it. */
  ghost predicate MayTouch(db: Db, s: Sid, actor: User, r: Rid) {
    && Permitted(db, s, actor, MANAGE_ROLES) && r in db.roles && db.roles[r].server == s
    && BelowActor(db.roles[r].position, ActorHighest(db, s, actor))
  }

  /** The role is in the list, and before it nothing but roles. */
  ghost predicate Listed(roles: map<Rid, Role>, ids: seq<Rid>, r: Rid) {
    exists i :: 0 <= i < |ids| && ids[i] == r && forall j | 0 <= j <= i :: ids[j] in roles
  }

  /** The entry names a role of the server below the given position. */
  predicate Placeable(db: Db, s: Sid, highest: int, entry: Placement) {
    entry.role in db.roles && db.roles[entry.role].server == s && db.roles[entry.role].position < highest
  }

  /** The first entry that may not be placed, and the reply it causes. */
  predicate FirstRefused(db: Db, s: Sid, highest: int, updates: seq<Placement>, i: nat, reply: Reply)
    requires i < |updates|
  {
    && (forall j | 0 <= j < i :: Placeable(db, s, highest, updates[j]))
    && !Placeable(db, s, highest, updates[i])
    && reply == if updates[i].role in db.roles && db.roles[updates[i].role].server == s then Forbidden else NotFound
  }

  /** Refused without the permission; otherwise done unless some entry may not be placed, and then the first decides. */
  ghost predicate ReorderReply(db: Db, actor: User, s: Sid, updates: seq<Placement>, reply: Reply) {
    var highest := ActorHighest(db, s, actor);
    if !Permitted(db, s, actor, MANAGE_ROLES) then reply == Forbidden
    else if highest == I32_MAX || (forall i | 0 <= i < |updates| :: Placeable(db, s, highest, updates[i])) then reply == Done
    else reply != Done && exists i :: 0 <= i < |updates| && FirstRefused(db, s, highest, updates, i, reply)
  }

  /** Each role of the server is at the position of the last entry naming it, if any does, and nothing else has changed. */
  ghost predicate Placed(db: Db, db': Db, s: Sid, updates: seq<Placement>) {
    && db'.servers == db.servers && db'.held == db.held && db'.invites == db.invites && db'.roles.Keys == db.roles.Keys
    && (forall r, i | r in db.roles && db.roles[r].server == s && 0 <= i < |updates| && updates[i].role == r
                      && (forall j | i < j < |updates| :: updates[j].role != r) ::
          db'.roles[r] == db.roles[r].(position := updates[i].position))
    && (forall r | r in db.roles && (db.roles[r].server != s || forall i | 0 <= i < |updates| :: updates[i].role != r) ::
          db'.roles[r] == db.roles[r])
  }

  /**
   * Refused exactly without the rights, and then nothing changes; otherwise the
   * target's role rows in the server are the default one and those listed, and
   * no other row changes. It is done exactly if all ids are roles and, unless
   * there are none, the target is a member.
   */
  ghost predicate Assigned(db: Db, db': Db, reply: Reply, actor: User, s: Sid, target: User, ids: seq<Rid>) {
    && db'.roles == db.roles && db'.servers == db.servers && db'.invites == db.invites
    && if !MayAssign(db, s, actor, target) then reply == Forbidden && db' == db
       else
         && reply == (if ids == [] || (IsMember(db, s, target) && forall i | 0 <= i < |ids| :: ids[i] in db.roles)
                      then Done else Internal)
         && forall h :: h in db'.held <==>
              if h.0 != s || h.1 != target then h in db.held
              else (h in db.held && h.2 == s) || (IsMember(db, s, target) && Listed(db.roles, ids, h.2))
  }

  /** Neither past its age, if it has one, nor used as often as its limit, if it has one. */
  predicate Usable(i: Invite, now: int) {
    && !(i.maxAge > 0 && now > i.createdAt + i.maxAge)
    && !(i.maxUses > 0 && i.uses >= i.maxUses)
  }

  /** The user has a member row and the default role's row, server and invite count one more, and no other row changes. */
  ghost predicate Joined(db: Db, db': Db, u: User, code: Code) {
    && code in db.invites
    && var i := db.invites[code];
       && OnlyServer(db, db', i.server)
       && (var sv, sv' := db.servers[i.server], db'.servers[i.server];
           && (forall x :: x in sv'.members <==> x in sv.members || x == u)
           && sv'.memberCount == sv.memberCount + 1 && sv'.owner == sv.owner && sv'.bans == sv.bans)
       && (forall h :: h in db'.held <==> h in db.held || h == (i.server, u, i.server))
       && db'.roles == db.roles && db'.invites.Keys == db.invites.Keys
       && (forall c | c in db.invites && c != code :: db'.invites[c] == db.invites[c])
       && db'.invites[code] == i.(uses := i.uses + 1, admitted := i.admitted + [u])
  }

  class Tables {
    var servers: map<Sid, Server>
    var roles: map<Rid, Role>
    var held: set<(Sid, User, Rid)>
    var invites: map<Code, Invite>

    function View(): Db
      reads this
    {
      Db(servers, roles, held, invites)
    }

    constructor ()
      ensures View() == Db(map[], map[], {}, map[])
    {
      servers, roles, held, invites := map[], map[], {}, map[];
    }

    // ---- Rights

    /** `get_user_permissions`: the selected rows are or-ed together in whatever order they come. */
    method GetUserPermissions(s: Sid, u: User) returns (perms: Word)
      ensures perms == PermsOf(View(), s, u)
    {
      if Owns(View(), s, u) {
        return All();
      }
      var rows := RoleRows(View(), s, u);
      perms := {};
      ghost var seen: set<Rid> := {};
      while rows != {}
        invariant seen + rows == RoleRows(View(), s, u)
        invariant perms == UnionOf(View(), seen)
        decreases |rows|
      {
        var r: Rid :| r in rows;
        perms := perms + Truncate(roles[r].perms);
        rows, seen := rows - {r}, seen + {r};
      }
      assert seen == RoleRows(View(), s, u);
      if ADMINISTRATOR in perms {
        return All();
      }
    }

    method RequirePermissions(s: Sid, u: User, flag: nat) returns (ok: bool)
      ensures ok == Permitted(View(), s, u, flag)
    {
      if !IsMember(View(), s, u) {
        return false;
      }
      var perms := GetUserPermissions(s, u);
      ok := flag in perms;
    }

    /** `SELECT MAX(position)`, 0 if there is no row. */
    method SelectMax(rows: set<Rid>) returns (highest: int)
      requires forall r | r in rows :: r in roles
      ensures highest == Highest(View(), rows)
    {
      if rows == {} {
        assert Positions(View(), rows) == {};
        return 0;
      }
      var best: Rid :| best in rows;
      var rest := rows - {best};
      while rest != {}
        invariant best in rows && rest <= rows
        invariant forall r | r in rows && r !in rest :: roles[r].position <= roles[best].position
        decreases |rest|
      {
        var r: Rid :| r in rest;
        if roles[r].position > roles[best].position {
          best := r;
        }
        rest := rest - {r};
      }
      HighestIs(View(), rows, best);
      return roles[best].position;
    }

    method CheckRoleHierarchy(s: Sid, actor: User, target: User) returns (ok: bool)
      ensures ok == Outranks(View(), s, actor, target)
    {
      if Owns(View(), s, actor) {
        return true;
      }
      var a := SelectMax(HeldRows(View(), s, actor));
      var t := SelectMax(HeldRows(View(), s, target));
      ok := a > t;
    }

    method GetActorHighestPosition(s: Sid, actor: User) returns (highest: int)
      ensures highest == ActorHighest(View(), s, actor)
    {
      if Owns(View(), s, actor) {
        return I32_MAX;
      }
      highest := SelectMax(HeldRows(View(), s, actor));
    }

    // ---- Servers and members

    /** The statements of the transaction. */
    method InsertServer(u: User, s: Sid)
      modifies this
      ensures View() == NewServer(old(View()), u, s)
    {
      servers := servers[s := Server(u, 1, {}, {})];
      roles := roles[s := Role(s, DefaultEveryone(), 0, true)];
      servers := servers[s := servers[s].(members := servers[s].members + {u})];
      held := held + {(s, u, s)};
      assert servers[s].members == {u} && servers == old(servers)[s := servers[s]];
    }

    method CreateServer(u: User, s: Sid) returns (reply: Reply)
      modifies this
      ensures reply == Done <==> |ServersJoined(old(View()), u)| < MAX_SERVERS && s !in old(servers) && s !in old(roles)
      ensures reply != Done ==> View() == old(View())
      ensures reply == Done ==>
                && servers == old(servers)[s := Server(u, 1, {u}, {})]
                && roles == old(roles)[s := Role(s, DefaultEveryone(), 0, true)]
                && held == old(held) + {(s, u, s)} && invites == old(invites)
      ensures Inv(old(View())) ==> Inv(View())
      ensures View() == Apply(old(View()), StepCreateServer(u, s))
    {
      ghost var before := View();
      if |ServersJoined(View(), u)| >= MAX_SERVERS {
        return BadRequest;
      }
      if s in servers || s in roles {
        return Internal;
      }
      InsertServer(u, s);
      StepKeepsInv(before, StepCreateServer(u, s));
      return Done;
    }

    /** `update_server` with a new owner. */
    method TransferOwnership(actor: User, s: Sid, newOwner: User) returns (reply: Reply)
      modifies this`servers
      ensures reply == if Owns(old(View()), s, actor) && IsMember(old(View()), s, newOwner) then Done else Forbidden
      ensures reply != Done ==> View() == old(View())
      ensures reply == Done ==>
                && OnlyServer(old(View()), View(), s) && Owns(View(), s, newOwner)
                && servers[s].members == old(servers)[s].members && servers[s].bans == old(servers)[s].bans
                && servers[s].memberCount == old(servers)[s].memberCount
      ensures Inv(old(View())) ==> Inv(View())
      ensures View() == Apply(old(View()), StepTransfer(actor, s, newOwner))
    {
      ghost var before := View();
      if !Owns(View(), s, actor) {
        return Forbidden;
      }
      if !IsMember(View(), s, newOwner) {
        return Forbidden;
      }
      servers := servers[s := servers[s].(owner := newOwner)];
      StepKeepsInv(before, StepTransfer(actor, s, newOwner));
      return Done;
    }

    method DeleteServer(actor: User, s: Sid, passwordOk: bool) returns (reply: Reply)
      modifies this
      ensures reply == if !Owns(old(View()), s, actor) then Forbidden else if passwordOk then Done else Unauthorized
      ensures reply != Done ==> View() == old(View())
      ensures reply == Done ==>
                && servers == old(servers) - {s}
                && (forall r :: r in roles <==> r in old(roles) && old(roles)[r].server != s)
                && (forall r | r in roles :: roles[r] == old(roles)[r])
                && (forall c :: c in invites <==> c in old(invites) && old(invites)[c].server != s)
                && (forall c | c in invites :: invites[c] == old(invites)[c])
                && (forall h :: h in held <==>
                      h in old(held) && h.0 != s && (h.2 in old(roles) ==> old(roles)[h.2].server != s))
      ensures Inv(old(View())) ==> Inv(View())
      ensures View() == Apply(old(View()), StepDeleteServer(actor, s, passwordOk))
    {
      ghost var before := View();
      if !Owns(View(), s, actor) {
        return Forbidden;
      }
      if !passwordOk {
        return Unauthorized;
      }
      held := set h | h in held && h.0 != s && (h.2 in roles ==> roles[h.2].server != s);
      roles := map r | r in roles && roles[r].server != s :: roles[r];
      invites := map c | c in invites && invites[c].server != s :: invites[c];
      servers := servers - {s};
      StepKeepsInv(before, StepDeleteServer(actor, s, passwordOk));
      return Done;
    }

    /** `DELETE FROM server_members`, with the role rows that cascade. */
    method DeleteMemberRow(s: Sid, u: User)
      requires s in servers
      modifies this`servers, this`held
      ensures servers == old(servers)[s := old(servers)[s].(members := old(servers)[s].members - {u})]
      ensures forall h :: h in held <==> h in old(held) && !(h.0 == s && h.1 == u)
    {
      servers := servers[s := servers[s].(members := servers[s].members - {u})];
      held := set h | h in held && !(h.0 == s && h.1 == u);
    }

    /** `UPDATE servers SET member_count = (SELECT COUNT(*) ...)` */
    method Recount(s: Sid)
      requires s in servers
      modifies this`servers
      ensures servers == old(servers)[s := old(servers)[s].(memberCount := |old(servers)[s].members|)]
    {
      servers := servers[s := servers[s].(memberCount := |servers[s].members|)];
    }

    method KickMember(actor: User, s: Sid, target: User) returns (reply: Reply)
      modifies this`servers, this`held
      ensures reply == if !MayRemove(old(View()), s, actor, target, KICK_MEMBERS) then Forbidden
                       else if IsMember(old(View()), s, target) then Done else NotFound
      ensures reply != Done ==> View() == old(View())
      ensures reply == Done ==> MemberGone(old(View()), View(), s, target) && servers[s].bans == old(servers)[s].bans
      ensures Inv(old(View())) ==> Inv(View())
      ensures View() == Apply(old(View()), StepKick(actor, s, target))
    {
      ghost var before := View();
      var permitted := RequirePermissions(s, actor, KICK_MEMBERS);
      if !permitted || Owns(View(), s, target) {
        return Forbidden;
      }
      var outranks := CheckRoleHierarchy(s, actor, target);
      if !outranks {
        return Forbidden;
      }
      if !IsMember(View(), s, target) {
        return NotFound;
      }
      DeleteMemberRow(s, target);
      Recount(s);
      RemovedRows(before, s, target, View());
      StepKeepsInv(before, StepKick(actor, s, target));
      return Done;
    }

    method LeaveServer(u: User, s: Sid) returns (reply: Reply)
      modifies this`servers, this`held
      ensures reply == if Owns(old(View()), s, u) then BadRequest
                       else if IsMember(old(View()), s, u) then Done else NotFound
      ensures reply != Done ==> View() == old(View())
      ensures reply == Done ==> MemberGone(old(View()), View(), s, u) && servers[s].bans == old(servers)[s].bans
      ensures Inv(old(View())) ==> Inv(View())
      ensures View() == Apply(old(View()), StepLeave(u, s))
    {
      ghost var before := View();
      if Owns(View(), s, u) {
        return BadRequest;
      }
      if !IsMember(View(), s, u) {
        return NotFound;
      }
      DeleteMemberRow(s, u);
      Recount(s);
      RemovedRows(before, s, u, View());
      StepKeepsInv(before, StepLeave(u, s));
      return Done;
    }

    /** `INSERT INTO bans ... ON CONFLICT DO UPDATE` */
    method InsertBan(s: Sid, u: User)
      requires s in servers
      modifies this`servers
      ensures servers == old(servers)[s := old(servers)[s].(bans := old(servers)[s].bans + {u})]
    {
      servers := servers[s := servers[s].(bans := servers[s].bans + {u})];
    }

    /** The member row goes if there is one, the ban is written, and the count is recomputed. */
    method BanRows(s: Sid, target: User)
      requires s in servers
      modifies this`servers, this`held
      ensures View() == BanUser(old(View()), s, target)
    {
      DeleteMemberRow(s, target);
      InsertBan(s, target);
      Recount(s);
      ghost var removed := RemoveMember(old(View()), s, target);
      assert held == removed.held;
      assert servers == removed.servers[s := servers[s]];
    }

    method CreateBan(actor: User, s: Sid, target: User) returns (reply: Reply)
      modifies this`servers, this`held
      ensures reply == if MayRemove(old(View()), s, actor, target, BAN_MEMBERS) then Done else Forbidden
      ensures reply != Done ==> View() == old(View())
      ensures reply == Done ==>
                && MemberGone(old(View()), View(), s, target)
                && forall x :: x in servers[s].bans <==> x in old(servers)[s].bans || x == target
      ensures Inv(old(View())) ==> Inv(View())
      ensures View() == Apply(old(View()), StepBan(actor, s, target))
    {
      ghost var before := View();
      var permitted := RequirePermissions(s, actor, BAN_MEMBERS);
      if !permitted || Owns(View(), s, target) {
        return Forbidden;
      }
      var outranks := CheckRoleHierarchy(s, actor, target);
      if !outranks {
        return Forbidden;
      }
      BanRows(s, target);
      BannedRows(before, s, target);
      StepKeepsInv(before, StepBan(actor, s, target));
      return Done;
    }

    method RemoveBan(actor: User, s: Sid, target: User) returns (reply: Reply)
      modifies this`servers
      ensures reply == if !Permitted(old(View()), s, actor, BAN_MEMBERS) then Forbidden
                       else if target in old(servers)[s].bans then Done else NotFound
      ensures reply != Done ==> View() == old(View())
      ensures reply == Done ==>
                && OnlyServer(old(View()), View(), s) && servers[s].owner == old(servers)[s].owner
                && servers[s].members == old(servers)[s].members
                && servers[s].memberCount == old(servers)[s].memberCount
                && forall x :: x in servers[s].bans <==> x in old(servers)[s].bans && x != target
      ensures Inv(old(View())) ==> Inv(View())
      ensures View() == Apply(old(View()), StepUnban(actor, s, target))
    {
      ghost var before := View();
      var permitted := RequirePermissions(s, actor, BAN_MEMBERS);
      if !permitted {
        return Forbidden;
      }
      if target !in servers[s].bans {
        return NotFound;
      }
      servers := servers[s := servers[s].(bans := servers[s].bans - {target})];
      StepKeepsInv(before, StepUnban(actor, s, target));
      return Done;
    }

    // ---- Invites

    method CreateInvite(actor: User, s: Sid, code: Code, maxUses: int, maxAge: int, now: int) returns (reply: Reply)
      modifies this`invites
      ensures reply == if !Permitted(old(View()), s, actor, CREATE_INVITE) then Forbidden
                       else if code in old(invites) then Internal else Done
      ensures reply != Done ==> View() == old(View())
      ensures reply == Done ==>
                && invites.Keys == old(invites).Keys + {code}
                && (forall c | c in old(invites) :: invites[c] == old(invites)[c])
                && invites[code].server == s && invites[code].inviter == actor
                && invites[code].uses == 0 && invites[code].admitted == []
                && (forall t :: Expired(invites[code], t) <==> maxAge > 0 && t > now + maxAge)
                && !UsedUp(invites[code]) && invites[code].maxUses == maxUses
      ensures Inv(old(View())) ==> Inv(View())
      ensures View() == Apply(old(View()), StepCreateInvite(actor, s, code, maxUses, maxAge, now))
    {
      ghost var before := View();
      var permitted := RequirePermissions(s, actor, CREATE_INVITE);
      if !permitted {
        return Forbidden;
      }
      if code in invites {
        return Internal;
      }
      invites := invites[code := Invite(s, actor, maxUses, 0, maxAge, now, [])];
      StepKeepsInv(before, StepCreateInvite(actor, s, code, maxUses, maxAge, now));
      return Done;
    }

    method DeleteInvite(actor: User, code: Code) returns (reply: Reply)
      modifies this`invites
      ensures reply == NotFound <==> code !in old(invites)
      ensures reply == Done <==>
                && code in old(invites)
                && (old(invites)[code].inviter == actor
                    || Permitted(old(View()), old(invites)[code].server, actor, MANAGE_SERVER))
      ensures reply in {Done, NotFound, Forbidden} && (reply != Done ==> View() == old(View()))
      ensures reply == Done ==>
                && invites.Keys == old(invites).Keys - {code}
                && forall c | c in invites :: invites[c] == old(invites)[c]
      ensures Inv(old(View())) ==> Inv(View())
      ensures View() == Apply(old(View()), StepDeleteInvite(actor, code))
    {
      ghost var before := View();
      if code !in invites {
        return NotFound;
      }
      if invites[code].inviter != actor {
        var permitted := RequirePermissions(invites[code].server, actor, MANAGE_SERVER);
        if !permitted {
          return Forbidden;
        }
      }
      invites := invites - {code};
      StepKeepsInv(before, StepDeleteInvite(actor, code));
      return Done;
    }

    method UseInvite(u: User, code: Code, now: int) returns (reply: Reply)
      modifies this
      ensures reply == NotFound <==> code !in old(invites)
      ensures reply == BadRequest <==> code in old(invites) && !Usable(old(invites)[code], now)
      ensures reply == Forbidden <==>
                && code in old(invites) && Usable(old(invites)[code], now)
                && !IsMember(old(View()), old(invites)[code].server, u)
                && old(invites)[code].server in old(servers) && old(invites)[code].server in old(roles)
                && u in old(servers)[old(invites)[code].server].bans
      ensures reply == Done <==>
                && code in old(invites) && Usable(old(invites)[code], now)
                && var s := old(invites)[code].server;
                   || IsMember(old(View()), s, u)
                   || (s in old(servers) && s in old(roles) && u !in old(servers)[s].bans)
      ensures reply != Done || IsMember(old(View()), old(invites)[code].server, u) ==> View() == old(View())
      ensures reply == Done && !IsMember(old(View()), old(invites)[code].server, u) ==>
                Joined(old(View()), View(), u, code)
      ensures Inv(old(View())) ==> Inv(View())
      ensures View() == Apply(old(View()), StepUseInvite(u, code, now))
    {
      ghost var before := View();
      if code !in invites {
        return NotFound;
      }
      var s := invites[code].server;
      if Expired(invites[code], now) {
        return BadRequest;
      }
      if UsedUp(invites[code]) {
        return BadRequest;
      }
      if IsMember(View(), s, u) {
        return Done;
      }
      if s !in servers || s !in roles {
        return Internal;
      }
      if u in servers[s].bans {
        return Forbidden;
      }
      JoinRows(u, code);
      JoinedRows(before, u, code);
      StepKeepsInv(before, StepUseInvite(u, code, now));
      return Done;
    }

    /** The four writes of a join. */
    method JoinRows(u: User, code: Code)
      requires code in invites && invites[code].server in servers
      modifies this
      ensures View() == Join(old(View()), u, code)
    {
      var s := invites[code].server;
      servers := servers[s := servers[s].(members := servers[s].members + {u})];
      held := held + {(s, u, s)};
      servers := servers[s := servers[s].(memberCount := servers[s].memberCount + 1)];
      invites := invites[code := invites[code].(uses := invites[code].uses + 1, admitted := invites[code].admitted + [u])];
      assert servers == old(servers)[s := servers[s]];
    }

    // ---- Roles

    /** `update_member` with a list of roles: its role rows are replaced one by one. */
    method UpdateMember(actor: User, s: Sid, target: User, ids: seq<Rid>) returns (reply: Reply)
      modifies this`held
      ensures Assigned(old(View()), View(), reply, actor, s, target, ids)
      ensures Inv(old(View())) ==> Inv(View())
      ensures (View(), reply) == Guilds.UpdateMember(old(View()), actor, s, target, ids)
    {
      AssignedRows(View(), actor, s, target, ids);
      AssignKeepsInv(View(), actor, s, target, ids);
      if !IsMember(View(), s, actor) {
        return Forbidden;
      }
      var outranks := CheckRoleHierarchy(s, actor, target);
      if !outranks {
        return Forbidden;
      }
      var perms := GetUserPermissions(s, actor);
      if MANAGE_ROLES !in perms {
        return Forbidden;
      }
      reply := ReplaceRoles(s, target, ids);
    }

    /** All role rows but the default one go, and the roles listed are inserted up to the first that fails. */
    method ReplaceRoles(s: Sid, target: User, ids: seq<Rid>) returns (reply: Reply)
      modifies this`held
      ensures (View(), reply) == GiveRoles(DropRoles(old(View()), s, target), s, target, ids)
    {
      held := set h | h in held && !(h.0 == s && h.1 == target && h.2 != s);
      ghost var start := View();
      var i := 0;
      assert ids[0..] == ids;
      while i < |ids|
        invariant 0 <= i <= |ids|
        invariant GiveRoles(View(), s, target, ids[i..]) == GiveRoles(start, s, target, ids)
      {
        if ids[i] !in roles || !IsMember(View(), s, target) {
          return Internal;
        }
        held := held + {(s, target, ids[i])};
        assert ids[i..][1..] == ids[i + 1..];
        i := i + 1;
      }
      return Done;
    }

    method CreateRole(actor: User, s: Sid, r: Rid, perms: Word) returns (reply: Reply)
      modifies this`roles
      ensures reply == if !Permitted(old(View()), s, actor, MANAGE_ROLES) || !(perms <= PermsOf(old(View()), s, actor))
                       then Forbidden else if r in old(roles) then Internal else Done
      ensures reply != Done ==> View() == old(View())
      ensures reply == Done ==>
                && roles.Keys == old(roles).Keys + {r} && (forall x | x in old(roles) :: roles[x] == old(roles)[x])
                && roles[r].server == s && roles[r].perms == perms && !roles[r].isDefault
                && roles[r].position == Guilds.NextPosition(old(View()), s)
      ensures Inv(old(View())) ==> Inv(View())
      ensures View() == Apply(old(View()), StepCreateRole(actor, s, r, perms))
    {
      ghost var before := View();
      var permitted := RequirePermissions(s, actor, MANAGE_ROLES);
      if !permitted {
        return Forbidden;
      }
      var highest := SelectMax(ServerRows(View(), s));
      if perms != {} {
        var own := GetUserPermissions(s, actor);
        if !(perms <= own) {
          return Forbidden;
        }
      }
      if r in roles {
        return Internal;
      }
      roles := roles[r := Role(s, perms, AsI32(highest + 1), false)];
      StepKeepsInv(before, StepCreateRole(actor, s, r, perms));
      return Done;
    }

    method UpdateRole(actor: User, s: Sid, r: Rid, perms: Option<Word>, position: Option<I32>) returns (reply: Reply)
      modifies this`roles
      ensures reply == Done <==>
                && MayTouch(old(View()), s, actor, r) && (perms.Some? || position.Some?)
                && (perms.Some? ==> perms.value <= PermsOf(old(View()), s, actor))
      ensures reply == NotFound <==>
                Permitted(old(View()), s, actor, MANAGE_ROLES) && !(r in old(roles) && old(roles)[r].server == s)
      ensures reply == BadRequest <==> MayTouch(old(View()), s, actor, r) && perms.None? && position.None?
      ensures reply in {Done, Forbidden, NotFound, BadRequest} && (reply != Done ==> View() == old(View()))
      ensures reply == Done ==>
                && roles.Keys == old(roles).Keys && (forall x | x in roles && x != r :: roles[x] == old(roles)[x])
                && roles[r].server == s && roles[r].isDefault == old(roles)[r].isDefault
                && roles[r].perms == (if perms.Some? then perms.value else old(roles)[r].perms)
                && roles[r].position == (if position.Some? then position.value else old(roles)[r].position)
      ensures Inv(old(View())) ==> Inv(View())
      ensures View() == Apply(old(View()), StepUpdateRole(actor, s, r, perms, position))
    {
      ghost var before := View();
      var permitted := RequirePermissions(s, actor, MANAGE_ROLES);
      if !permitted {
        return Forbidden;
      }
      var highest := GetActorHighestPosition(s, actor);
      if r !in roles || roles[r].server != s {
        return NotFound;
      }
      if roles[r].position >= highest && highest != I32_MAX {
        return Forbidden;
      }
      if perms.None? && position.None? {
        return BadRequest;
      }
      if perms.Some? {
        var own := GetUserPermissions(s, actor);
        if !(perms.value <= own) {
          return Forbidden;
        }
      }
      var role := roles[r];
      if perms.Some? {
        role := role.(perms := perms.value);
      }
      if position.Some? {
        role := role.(position := position.value);
      }
      roles := roles[r := role];
      StepKeepsInv(before, StepUpdateRole(actor, s, r, perms, position));
      return Done;
    }

    method DeleteRole(actor: User, s: Sid, r: Rid) returns (reply: Reply)
      modifies this`roles, this`held
      ensures reply == Done <==> MayTouch(old(View()), s, actor, r) && !old(roles)[r].isDefault
      ensures reply == NotFound <==>
                Permitted(old(View()), s, actor, MANAGE_ROLES) && !(r in old(roles) && old(roles)[r].server == s)
      ensures reply == BadRequest <==>
                && Permitted(old(View()), s, actor, MANAGE_ROLES)
                && r in old(roles) && old(roles)[r].server == s && old(roles)[r].isDefault
      ensures reply in {Done, Forbidden, NotFound, BadRequest} && (reply != Done ==> View() == old(View()))
      ensures reply == Done ==>
                && roles.Keys == old(roles).Keys - {r} && (forall x | x in roles :: roles[x] == old(roles)[x])
                && (forall h :: h in held <==> h in old(held) && h.2 != r)
      ensures Inv(old(View())) ==> Inv(View())
      ensures View() == Apply(old(View()), StepDeleteRole(actor, s, r))
    {
      ghost var before := View();
      var permitted := RequirePermissions(s, actor, MANAGE_ROLES);
      if !permitted {
        return Forbidden;
      }
      if r !in roles || roles[r].server != s {
        return NotFound;
      }
      if roles[r].isDefault {
        return BadRequest;
      }
      var highest := GetActorHighestPosition(s, actor);
      if roles[r].position >= highest && highest != I32_MAX {
        return Forbidden;
      }
      roles := roles - {r};
      held := set h | h in held && h.2 != r;
      StepKeepsInv(before, StepDeleteRole(actor, s, r));
      return Done;
    }

    /** The first loop of `reorder_roles`: every role named must lie below the actor. */
    method FindObjection(s: Sid, highest: int, updates: seq<Placement>) returns (reply: Reply)
      ensures reply == Done <==> forall i | 0 <= i < |updates| :: Placeable(View(), s, highest, updates[i])
      ensures reply != Done ==> exists i :: 0 <= i < |updates| && FirstRefused(View(), s, highest, updates, i, reply)
      ensures reply == Objection(View(), s, highest, updates)
    {
      var i := 0;
      assert updates[0..] == updates;
      while i < |updates|
        invariant 0 <= i <= |updates|
        invariant forall j | 0 <= j < i :: Placeable(View(), s, highest, updates[j])
        invariant Objection(View(), s, highest, updates[i..]) == Objection(View(), s, highest, updates)
      {
        var r := updates[i].role;
        if r !in roles || roles[r].server != s {
          assert FirstRefused(View(), s, highest, updates, i, NotFound);
          return NotFound;
        }
        if roles[r].position >= highest {
          assert FirstRefused(View(), s, highest, updates, i, Forbidden);
          return Forbidden;
        }
        assert updates[i..][1..] == updates[i + 1..];
        i := i + 1;
      }
      return Done;
    }

    /** The second loop: `UPDATE roles SET position`, entry by entry. */
    method PlaceAll(s: Sid, updates: seq<Placement>)
      modifies this`roles
      ensures View() == PlaceRoles(old(View()), s, updates)
    {
      var i := 0;
      assert updates[0..] == updates;
      while i < |updates|
        invariant 0 <= i <= |updates|
        invariant PlaceRoles(View(), s, updates[i..]) == PlaceRoles(old(View()), s, updates)
      {
        var r := updates[i].role;
        if r in roles && roles[r].server == s {
          roles := roles[r := roles[r].(position := updates[i].position)];
        }
        assert updates[i..][1..] == updates[i + 1..];
        i := i + 1;
      }
    }

    method ReorderRoles(actor: User, s: Sid, updates: seq<Placement>) returns (reply: Reply)
      modifies this`roles
      ensures ReorderReply(old(View()), actor, s, updates, reply)
      ensures if reply == Done then Placed(old(View()), View(), s, updates) else View() == old(View())
      ensures Inv(old(View())) ==> Inv(View())
      ensures (View(), reply) == Guilds.ReorderRoles(old(View()), actor, s, updates)
    {
      PlacedRows(View(), s, updates);
      PlacedKeepsInv(View(), s, updates);
      var permitted := RequirePermissions(s, actor, MANAGE_ROLES);
      if !permitted {
        return Forbidden;
      }
      var highest := GetActorHighestPosition(s, actor);
      if highest != I32_MAX {
        var objection := FindObjection(s, highest, updates);
        if objection != Done {
          return objection;
        }
      }
      PlaceAll(s, updates);
      return Done;
    }
  }

  lemma {:induction false} ReachedIsListed(roles: map<Rid, Role>, ids: seq<Rid>, r: Rid)
    ensures Reached(roles, ids, r) <==> Listed(roles, ids, r)
  {
    if ids != [] {
      var rest := ids[1..];
      ReachedIsListed(roles, rest, r);
      if Listed(roles, rest, r) && ids[0] in roles {
        var i :| 0 <= i < |rest| && rest[i] == r && forall j | 0 <= j <= i :: rest[j] in roles;
        assert ids[i + 1] == r && forall j | 0 < j <= i + 1 :: ids[j] == rest[j - 1];
      }
      if Listed(roles, ids, r) && ids[0] != r {
        var i :| 0 <= i < |ids| && ids[i] == r && forall j | 0 <= j <= i :: ids[j] in roles;
        assert rest[i - 1] == r && forall j | 0 <= j <= i - 1 :: rest[j] == ids[j + 1];
      }
    }
  }

  lemma {:induction false} GiveRolesReply(db: Db, s: Sid, target: User, ids: seq<Rid>)
    ensures GiveRoles(db, s, target, ids).1
         == if ids == [] || (IsMember(db, s, target) && forall i | 0 <= i < |ids| :: ids[i] in db.roles) then Done else Internal
    decreases |ids|
  {
    if ids != [] && ids[0] in db.roles && IsMember(db, s, target) {
      GiveRolesReply(db.(held := db.held + {(s, target, ids[0])}), s, target, ids[1..]);
      assert forall i | 0 < i < |ids| :: ids[i] == ids[1..][i - 1];
      assert forall i | 0 <= i < |ids[1..]| :: ids[1..][i] == ids[i + 1];
    }
  }

  lemma PlacedRows(db: Db, s: Sid, updates: seq<Placement>)
    ensures Placed(db, PlaceRoles(db, s, updates), s, updates)
  {
    PlaceRolesKeepsServers(db, s, updates);
    PlaceRolesKeepsPerms(db, s, updates);
    forall r, i | r in db.roles && db.roles[r].server == s && 0 <= i < |updates| && updates[i].role == r
                  && (forall j | i < j < |updates| :: updates[j].role != r)
      ensures PlaceRoles(db, s, updates).roles[r] == db.roles[r].(position := updates[i].position)
    {
      PlacedAtLast(db, s, updates, r, i);
    }
    forall r | r in db.roles && (db.roles[r].server != s || forall i | 0 <= i < |updates| :: updates[i].role != r)
      ensures PlaceRoles(db, s, updates).roles[r] == db.roles[r]
    {
      if db.roles[r].server != s {
        OtherServersRole(db, s, updates, r);
      } else {
        UnnamedRoleStays(db, s, updates, r);
      }
    }
  }

  lemma PlacedKeepsInv(db: Db, s: Sid, updates: seq<Placement>)
    ensures Inv(db) ==> Inv(PlaceRoles(db, s, updates))
  {
    if Inv(db) {
      PlaceRolesKeepsInv(db, s, updates);
    }
  }

  lemma AssignKeepsInv(db: Db, actor: User, s: Sid, target: User, ids: seq<Rid>)
    ensures Inv(db) ==> Inv(Guilds.UpdateMember(db, actor, s, target, ids).0)
  {
    if Inv(db) {
      UpdateMemberKeepsInv(db, actor, s, target, ids);
    }
  }

  lemma AssignedRows(db: Db, actor: User, s: Sid, target: User, ids: seq<Rid>)
    ensures var (db', reply) := Guilds.UpdateMember(db, actor, s, target, ids);
            Assigned(db, db', reply, actor, s, target, ids)
  {
    var db' := Guilds.UpdateMember(db, actor, s, target, ids).0;
    GiveRolesReply(DropRoles(db, s, target), s, target, ids);
    GiveRolesKeepsRoles(DropRoles(db, s, target), s, target, ids);
    forall h: (Sid, User, Rid) | MayAssign(db, s, actor, target)
      ensures h in db'.held <==>
              if h.0 != s || h.1 != target then h in db.held
              else (h in db.held && h.2 == s) || (IsMember(db, s, target) && Listed(db.roles, ids, h.2))
    {
      RowsAfter(db, actor, s, target, ids, h);
      ReachedIsListed(db.roles, ids, h.2);
    }
  }

  lemma JoinedRows(db: Db, u: User, code: Code)
    requires code in db.invites && db.invites[code].server in db.servers
    ensures Joined(db, Join(db, u, code), u, code)
  {
  }

  lemma RemovedRows(db: Db, s: Sid, u: User, db': Db)
    requires s in db.servers && db'.roles == db.roles && db'.invites == db.invites
    requires db'.servers == db.servers[s := db.servers[s].(members := db.servers[s].members - {u},
                                                            memberCount := |db.servers[s].members - {u}|)]
    requires forall h :: h in db'.held <==> h in db.held && !(h.0 == s && h.1 == u)
    ensures MemberGone(db, db', s, u) && db'.servers[s].bans == db.servers[s].bans
    ensures db' == RemoveMember(db, s, u)
  {
    assert db'.held == RemoveMember(db, s, u).held;
  }

  lemma BannedRows(db: Db, s: Sid, u: User)
    requires s in db.servers
    ensures MemberGone(db, BanUser(db, s, u), s, u)
    ensures forall x :: x in BanUser(db, s, u).servers[s].bans <==> x in db.servers[s].bans || x == u
  {
  }

  lemma StepKeepsInv(db: Db, step: Step)
    ensures Inv(db) ==> Inv(Apply(db, step))
  {
    if Inv(db) {
      ApplyKeepsInv(db, step);
    }
  }
}
