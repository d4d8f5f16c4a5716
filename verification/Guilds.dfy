/**
 * Servers, members, roles, bans and invites: the tables and what each handler
 * does to them, one handler as one atomic step.
 */
module Guilds {
  import opened Options
  import opened Integers
  import opened Maxima
  import opened Permissions

  type Sid = nat
  type User = nat
  type Rid = nat
  type Code = nat

  const MAX_SERVERS := 100
  const MANAGE_SERVER: nat := 2

  /** A server with its rows of the member and ban tables. */
  datatype Server = Server(owner: User, memberCount: int, members: set<User>, bans: set<User>)

  datatype Role = Role(server: Sid, perms: Word, position: I32, isDefault: bool)

  /** `admitted` records whom the invite let in: history that no handler reads. */
  datatype Invite = Invite(server: Sid, inviter: User, maxUses: int, uses: int, maxAge: int, createdAt: int,
                           admitted: seq<User>)

  datatype Db = Db(
    servers: map<Sid, Server>,
    roles: map<Rid, Role>,
    held: set<(Sid, User, Rid)>,
    invites: map<Code, Invite>)

  datatype Reply = Done | Forbidden | NotFound | BadRequest | Unauthorized | Internal

  // ---- Queries

  predicate IsMember(db: Db, s: Sid, u: User) {
    s in db.servers && u in db.servers[s].members
  }

  predicate Owns(db: Db, s: Sid, u: User) {
    s in db.servers && db.servers[s].owner == u
  }

  /** A role row of the user for the role, in whichever server: the join does not ask. */
  predicate HasRow(db: Db, u: User, r: Rid) {
    exists h | h in db.held :: h.1 == u && h.2 == r
  }

  /** The rows that `get_user_permissions` selects: the default role and every role of the server held. */
  function RoleRows(db: Db, s: Sid, u: User): set<Rid> {
    set r | r in db.roles && db.roles[r].server == s
            && (db.roles[r].isDefault || HasRow(db, u, r))
  }

  function UnionOf(db: Db, rows: set<Rid>): Word {
    set r, f | r in rows && r in db.roles && f in db.roles[r].perms && f in All() :: f
  }

  /** The word with everything in it if it contains ADMINISTRATOR. */
  function Expand(w: Word): Word {
    if ADMINISTRATOR in w then All() else w
  }

  function PermsOf(db: Db, s: Sid, u: User): Word {
    if Owns(db, s, u) then All() else Expand(UnionOf(db, RoleRows(db, s, u)))
  }

  /** `require_permissions` */
  predicate Permitted(db: Db, s: Sid, u: User, flag: nat) {
    IsMember(db, s, u) && flag in PermsOf(db, s, u)
  }

  /** The roles a member holds by its own rows, whichever server they belong to. */
  function HeldRows(db: Db, s: Sid, u: User): set<Rid> {
    set h | h in db.held && h.0 == s && h.1 == u && h.2 in db.roles :: h.2
  }

  function ServerRows(db: Db, s: Sid): set<Rid> {
    set r | r in db.roles && db.roles[r].server == s
  }

  ghost function Positions(db: Db, rows: set<Rid>): set<int> {
    set r | r in rows && r in db.roles :: db.roles[r].position
  }

  /** `SELECT MAX(position) ... unwrap_or(0)` */
  ghost function Highest(db: Db, rows: set<Rid>): int {
    var ps := Positions(db, rows);
    if exists p :: p in ps then MaxOf(ps) else 0
  }

  /**
   * Who passes `require_permissions`: a member, if it owns the server, or if the
   * default role or a role of the server it has a row for grants a known flag or
   * ADMINISTRATOR.
   */
  lemma PermittedIff(db: Db, s: Sid, u: User, flag: nat)
    requires s in db.servers && flag < 38
    ensures Permitted(db, s, u, flag)
       <==> && u in db.servers[s].members
            && (db.servers[s].owner == u
                || exists r | r in db.roles ::
                     && db.roles[r].server == s
                     && (db.roles[r].isDefault || exists h | h in db.held :: h.1 == u && h.2 == r)
                     && (flag in db.roles[r].perms || ADMINISTRATOR in db.roles[r].perms))
  {
    assert flag in All() && ADMINISTRATOR in All();
    assert ADMINISTRATOR in UnionOf(db, RoleRows(db, s, u))
      <==> exists r | r in RoleRows(db, s, u) :: ADMINISTRATOR in db.roles[r].perms;
    assert flag in UnionOf(db, RoleRows(db, s, u)) <==> exists r | r in RoleRows(db, s, u) :: flag in db.roles[r].perms;
  }

  lemma HighestIs(db: Db, rows: set<Rid>, best: Rid)
    requires best in rows && best in db.roles
    requires forall r | r in rows :: r in db.roles && db.roles[r].position <= db.roles[best].position
    ensures Highest(db, rows) == db.roles[best].position
  {
    assert db.roles[best].position in Positions(db, rows);
    MaxIs(Positions(db, rows), db.roles[best].position);
  }

  /** One more than the highest position of the server's roles, in 32 bits. */
  ghost function NextPosition(db: Db, s: Sid): I32 {
    AsI32(Highest(db, ServerRows(db, s)) + 1)
  }

  /** `check_role_hierarchy` */
  ghost predicate Outranks(db: Db, s: Sid, actor: User, target: User) {
    Owns(db, s, actor) || Highest(db, HeldRows(db, s, actor)) > Highest(db, HeldRows(db, s, target))
  }

  ghost function ActorHighest(db: Db, s: Sid, actor: User): int {
    if Owns(db, s, actor) then I32_MAX else Highest(db, HeldRows(db, s, actor))
  }

  /** May an actor of the given highest position touch a role at this one? */
  predicate BelowActor(position: int, highest: int) {
    position < highest || highest == I32_MAX
  }

  // ---- Handlers

  function ServersJoined(db: Db, u: User): set<Sid> {
    set s | s in db.servers && u in db.servers[s].members
  }

  function CreateServer(db: Db, u: User, s: Sid): (Db, Reply) {
    if |ServersJoined(db, u)| >= MAX_SERVERS then (db, BadRequest)
    else if s in db.servers || s in db.roles then (db, Internal)
    else (NewServer(db, u, s), Done)
  }

  function NewServer(db: Db, u: User, s: Sid): Db {
    Db(db.servers[s := Server(u, 1, {u}, {})], db.roles[s := Role(s, DefaultEveryone(), 0, true)],
       db.held + {(s, u, s)}, db.invites)
  }

  function TransferOwnership(db: Db, actor: User, s: Sid, newOwner: User): (Db, Reply) {
    if !Owns(db, s, actor) || !IsMember(db, s, newOwner) then (db, Forbidden)
    else (db.(servers := db.servers[s := db.servers[s].(owner := newOwner)]), Done)
  }

  function DeleteServer(db: Db, actor: User, s: Sid, passwordOk: bool): (Db, Reply) {
    if !Owns(db, s, actor) then (db, Forbidden)
    else if !passwordOk then (db, Unauthorized)
    else (Db(db.servers - {s}, map r | r in db.roles && db.roles[r].server != s :: db.roles[r],
             set h | h in db.held && h.0 != s && (h.2 in db.roles ==> db.roles[h.2].server != s),
             map c | c in db.invites && db.invites[c].server != s :: db.invites[c]), Done)
  }

  /** Deleting a member row takes its role rows with it; the count is recomputed. */
  function RemoveMember(db: Db, s: Sid, u: User): Db
    requires s in db.servers
  {
    var left := db.servers[s].members - {u};
    db.(servers := db.servers[s := db.servers[s].(members := left, memberCount := |left|)],
        held := set h | h in db.held && !(h.0 == s && h.1 == u))
  }

  ghost function KickMember(db: Db, actor: User, s: Sid, target: User): (Db, Reply) {
    if !Permitted(db, s, actor, KICK_MEMBERS) || Owns(db, s, target) || !Outranks(db, s, actor, target) then (db, Forbidden)
    else if !IsMember(db, s, target) then (db, NotFound)
    else (RemoveMember(db, s, target), Done)
  }

  function LeaveServer(db: Db, u: User, s: Sid): (Db, Reply) {
    if Owns(db, s, u) then (db, BadRequest)
    else if !IsMember(db, s, u) then (db, NotFound)
    else (RemoveMember(db, s, u), Done)
  }

  ghost function CreateBan(db: Db, actor: User, s: Sid, target: User): (Db, Reply) {
    if !Permitted(db, s, actor, BAN_MEMBERS) || Owns(db, s, target) || !Outranks(db, s, actor, target) then (db, Forbidden)
    else (BanUser(db, s, target), Done)
  }

  function BanUser(db: Db, s: Sid, target: User): Db
    requires s in db.servers
  {
    var removed := RemoveMember(db, s, target);
    removed.(servers := removed.servers[s := removed.servers[s].(bans := removed.servers[s].bans + {target})])
  }

  function RemoveBan(db: Db, actor: User, s: Sid, target: User): (Db, Reply) {
    if !Permitted(db, s, actor, BAN_MEMBERS) then (db, Forbidden)
    else if target !in db.servers[s].bans then (db, NotFound)
    else (db.(servers := db.servers[s := db.servers[s].(bans := db.servers[s].bans - {target})]), Done)
  }

  function CreateInvite(db: Db, actor: User, s: Sid, code: Code, maxUses: int, maxAge: int, now: int): (Db, Reply) {
    if !Permitted(db, s, actor, CREATE_INVITE) then (db, Forbidden)
    else if code in db.invites then (db, Internal)
    else (db.(invites := db.invites[code := Invite(s, actor, maxUses, 0, maxAge, now, [])]), Done)
  }

  function DeleteInvite(db: Db, actor: User, code: Code): (Db, Reply) {
    if code !in db.invites then (db, NotFound)
    else if db.invites[code].inviter != actor && !Permitted(db, db.invites[code].server, actor, MANAGE_SERVER)
    then (db, Forbidden)
    else (db.(invites := db.invites - {code}), Done)
  }

  function Expired(i: Invite, now: int): bool {
    i.maxAge > 0 && now > i.createdAt + i.maxAge
  }

  function UsedUp(i: Invite): bool {
    i.maxUses > 0 && i.uses >= i.maxUses
  }

  function Join(db: Db, u: User, code: Code): Db
    requires code in db.invites && db.invites[code].server in db.servers
  {
    var i := db.invites[code];
    var sv := db.servers[i.server];
    Db(db.servers[i.server := sv.(members := sv.members + {u}, memberCount := sv.memberCount + 1)], db.roles,
       db.held + {(i.server, u, i.server)},
       db.invites[code := i.(uses := i.uses + 1, admitted := i.admitted + [u])])
  }

  function UseInvite(db: Db, u: User, code: Code, now: int): (Db, Reply) {
    if code !in db.invites then (db, NotFound)
    else
      var i := db.invites[code];
      if Expired(i, now) || UsedUp(i) then (db, BadRequest)
      else if IsMember(db, i.server, u) then (db, Done)
      else if i.server !in db.servers || i.server !in db.roles then (db, Internal)
      else if u in db.servers[i.server].bans then (db, Forbidden)
      else (Join(db, u, code), Done)
  }

  /** Inserts role rows one after the other; a role or member that does not exist stops the handler there. */
  function GiveRoles(db: Db, s: Sid, target: User, ids: seq<Rid>): (Db, Reply)
    decreases |ids|
  {
    if ids == [] then (db, Done)
    else if ids[0] !in db.roles || !IsMember(db, s, target) then (db, Internal)
    else GiveRoles(db.(held := db.held + {(s, target, ids[0])}), s, target, ids[1..])
  }

  function DropRoles(db: Db, s: Sid, target: User): Db {
    db.(held := set h | h in db.held && !(h.0 == s && h.1 == target && h.2 != s))
  }

  ghost function UpdateMember(db: Db, actor: User, s: Sid, target: User, ids: seq<Rid>): (Db, Reply) {
    if !IsMember(db, s, actor) || !Outranks(db, s, actor, target) || MANAGE_ROLES !in PermsOf(db, s, actor)
    then (db, Forbidden)
    else GiveRoles(DropRoles(db, s, target), s, target, ids)
  }

  ghost function CreateRole(db: Db, actor: User, s: Sid, r: Rid, perms: Word): (Db, Reply) {
    if !Permitted(db, s, actor, MANAGE_ROLES) then (db, Forbidden)
    else if perms != {} && !(perms <= PermsOf(db, s, actor)) then (db, Forbidden)
    else if r in db.roles then (db, Internal)
    else (db.(roles := db.roles[r := Role(s, perms, NextPosition(db, s), false)]), Done)
  }

  ghost function UpdateRole(db: Db, actor: User, s: Sid, r: Rid, perms: Option<Word>, position: Option<I32>): (Db, Reply) {
    if !Permitted(db, s, actor, MANAGE_ROLES) then (db, Forbidden)
    else if r !in db.roles || db.roles[r].server != s then (db, NotFound)
    else if !BelowActor(db.roles[r].position, ActorHighest(db, s, actor)) then (db, Forbidden)
    else if perms.None? && position.None? then (db, BadRequest)
    else if perms.Some? && !(perms.value <= PermsOf(db, s, actor)) then (db, Forbidden)
    else
      var old_ := db.roles[r];
      (db.(roles := db.roles[r := old_.(perms := if perms.Some? then perms.value else old_.perms,
                                        position := if position.Some? then position.value else old_.position)]), Done)
  }

  ghost function DeleteRole(db: Db, actor: User, s: Sid, r: Rid): (Db, Reply) {
    if !Permitted(db, s, actor, MANAGE_ROLES) then (db, Forbidden)
    else if r !in db.roles || db.roles[r].server != s then (db, NotFound)
    else if db.roles[r].isDefault then (db, BadRequest)
    else if !BelowActor(db.roles[r].position, ActorHighest(db, s, actor)) then (db, Forbidden)
    else (db.(roles := db.roles - {r}, held := set h | h in db.held && h.2 != r), Done)
  }

  datatype Placement = Placement(role: Rid, position: I32)

  /** The first objection to a reordering, in the order of its entries. */
  function Objection(db: Db, s: Sid, highest: int, updates: seq<Placement>): Reply {
    if updates == [] then Done
    else if updates[0].role !in db.roles || db.roles[updates[0].role].server != s then NotFound
    else if db.roles[updates[0].role].position >= highest then Forbidden
    else Objection(db, s, highest, updates[1..])
  }

  function PlaceRoles(db: Db, s: Sid, updates: seq<Placement>): Db
    decreases |updates|
  {
    if updates == [] then db
    else
      var r := updates[0].role;
      var db' := if r in db.roles && db.roles[r].server == s
                 then db.(roles := db.roles[r := db.roles[r].(position := updates[0].position)]) else db;
      PlaceRoles(db', s, updates[1..])
  }

  ghost function ReorderRoles(db: Db, actor: User, s: Sid, updates: seq<Placement>): (Db, Reply) {
    if !Permitted(db, s, actor, MANAGE_ROLES) then (db, Forbidden)
    else
      var highest := ActorHighest(db, s, actor);
      var objection := if highest == I32_MAX then Done else Objection(db, s, highest, updates);
      if objection != Done then (db, objection) else (PlaceRoles(db, s, updates), Done)
  }

  // ---- Runs

  datatype Step =
    | StepCreateServer(actor: User, server: Sid)
    | StepTransfer(actor: User, server: Sid, newOwner: User)
    | StepDeleteServer(actor: User, server: Sid, passwordOk: bool)
    | StepKick(actor: User, server: Sid, target: User)
    | StepLeave(actor: User, server: Sid)
    | StepBan(actor: User, server: Sid, target: User)
    | StepUnban(actor: User, server: Sid, target: User)
    | StepCreateInvite(actor: User, server: Sid, code: Code, maxUses: int, maxAge: int, now: int)
    | StepDeleteInvite(actor: User, code: Code)
    | StepUseInvite(actor: User, code: Code, now: int)
    | StepUpdateMember(actor: User, server: Sid, target: User, ids: seq<Rid>)
    | StepCreateRole(actor: User, server: Sid, role: Rid, perms: Word)
    | StepUpdateRole(actor: User, server: Sid, role: Rid, newPerms: Option<Word>, position: Option<I32>)
    | StepDeleteRole(actor: User, server: Sid, role: Rid)
    | StepReorder(actor: User, server: Sid, updates: seq<Placement>)

  ghost function Apply(db: Db, step: Step): Db {
    match step
    case StepCreateServer(a, s) => CreateServer(db, a, s).0
    case StepTransfer(a, s, u) => TransferOwnership(db, a, s, u).0
    case StepDeleteServer(a, s, p) => DeleteServer(db, a, s, p).0
    case StepKick(a, s, u) => KickMember(db, a, s, u).0
    case StepLeave(a, s) => LeaveServer(db, a, s).0
    case StepBan(a, s, u) => CreateBan(db, a, s, u).0
    case StepUnban(a, s, u) => RemoveBan(db, a, s, u).0
    case StepCreateInvite(a, s, c, m, g, n) => CreateInvite(db, a, s, c, m, g, n).0
    case StepDeleteInvite(a, c) => DeleteInvite(db, a, c).0
    case StepUseInvite(a, c, n) => UseInvite(db, a, c, n).0
    case StepUpdateMember(a, s, u, ids) => UpdateMember(db, a, s, u, ids).0
    case StepCreateRole(a, s, r, p) => CreateRole(db, a, s, r, p).0
    case StepUpdateRole(a, s, r, p, n) => UpdateRole(db, a, s, r, p, n).0
    case StepDeleteRole(a, s, r) => DeleteRole(db, a, s, r).0
    case StepReorder(a, s, us) => ReorderRoles(db, a, s, us).0
  }

  ghost function Run(db: Db, steps: seq<Step>): Db
    decreases |steps|
  {
    if steps == [] then db else Run(Apply(db, steps[0]), steps[1..])
  }

  // ---- What every run keeps

  ghost predicate ServerOk(sv: Server) {
    && sv.owner in sv.members && sv.owner !in sv.bans
    && sv.members !! sv.bans
    && sv.memberCount == |sv.members|
  }

  ghost predicate InviteOk(db: Db, i: Invite) {
    && i.server in db.servers
    && i.uses == |i.admitted| && (i.maxUses > 0 ==> i.uses <= i.maxUses)
  }

  ghost predicate RoleOk(db: Db, r: Rid, role: Role) {
    role.server in db.servers && role.perms <= All() && (role.isDefault <==> r == role.server)
  }

  ghost predicate HeldOk(db: Db, h: (Sid, User, Rid)) {
    IsMember(db, h.0, h.1) && h.2 in db.roles
  }

  ghost predicate Inv(db: Db) {
    && (forall s | s in db.servers :: ServerOk(db.servers[s]))
    && (forall s | s in db.servers :: s in db.roles && db.roles[s].server == s)
    && (forall r | r in db.roles :: RoleOk(db, r, db.roles[r]))
    && (forall h | h in db.held :: HeldOk(db, h))
    && (forall c | c in db.invites :: InviteOk(db, db.invites[c]))
  }

  lemma ServerRowChanges(db: Db, s: Sid, sv: Server, held: set<(Sid, User, Rid)>)
    requires Inv(db) && s in db.servers && ServerOk(sv)
    requires held <= db.held && forall h | h in held && h.0 == s :: h.1 in sv.members
    ensures Inv(db.(servers := db.servers[s := sv], held := held))
  {
    var db' := db.(servers := db.servers[s := sv], held := held);
    forall r | r in db'.roles ensures RoleOk(db', r, db'.roles[r]) {
      assert RoleOk(db, r, db.roles[r]);
    }
    forall h | h in db'.held ensures HeldOk(db', h) {
      assert HeldOk(db, h);
    }
    forall c | c in db'.invites ensures InviteOk(db', db'.invites[c]) {
      assert InviteOk(db, db.invites[c]);
    }
  }

  lemma RoleRowChanges(db: Db, r: Rid, role: Role)
    requires Inv(db) && RoleOk(db, r, role) && (r in db.roles ==> db.roles[r].server == role.server)
    ensures Inv(db.(roles := db.roles[r := role]))
  {
    var db' := db.(roles := db.roles[r := role]);
    forall x | x in db'.roles ensures RoleOk(db', x, db'.roles[x]) {
      if x != r {
        assert RoleOk(db, x, db.roles[x]);
      }
    }
    forall h | h in db'.held ensures HeldOk(db', h) {
      assert HeldOk(db, h);
    }
    forall c | c in db'.invites ensures InviteOk(db', db'.invites[c]) {
      assert InviteOk(db, db.invites[c]);
    }
    forall s | s in db'.servers ensures s in db'.roles && db'.roles[s].server == s {
      assert s in db.roles && db.roles[s].server == s;
    }
  }

  lemma HeldRowsChange(db: Db, held: set<(Sid, User, Rid)>)
    requires Inv(db) && forall h | h in held :: HeldOk(db, h)
    ensures Inv(db.(held := held))
  {
    var db' := db.(held := held);
    forall r | r in db'.roles ensures RoleOk(db', r, db'.roles[r]) {
      assert RoleOk(db, r, db.roles[r]);
    }
    forall h | h in db'.held ensures HeldOk(db', h) {
      assert HeldOk(db, h);
    }
    forall c | c in db'.invites ensures InviteOk(db', db'.invites[c]) {
      assert InviteOk(db, db.invites[c]);
    }
  }

  lemma InviteRowsChange(db: Db, invites: map<Code, Invite>)
    requires Inv(db) && forall c | c in invites :: InviteOk(db, invites[c])
    ensures Inv(db.(invites := invites))
  {
    var db' := db.(invites := invites);
    forall r | r in db'.roles ensures RoleOk(db', r, db'.roles[r]) {
      assert RoleOk(db, r, db.roles[r]);
    }
    forall h | h in db'.held ensures HeldOk(db', h) {
      assert HeldOk(db, h);
    }
    forall c | c in db'.invites ensures InviteOk(db', db'.invites[c]) {
      assert InviteOk(db, invites[c]);
    }
  }

  lemma CreateServerKeepsInv(db: Db, u: User, s: Sid)
    requires Inv(db)
    ensures Inv(CreateServer(db, u, s).0)
  {
    if CreateServer(db, u, s).1 == Done {
      NewServerKeepsInv(db, u, s);
    }
  }

  lemma NewServerKeepsInv(db: Db, u: User, s: Sid)
    requires Inv(db) && s !in db.servers && s !in db.roles
    ensures Inv(NewServer(db, u, s))
  {
    var db' := NewServer(db, u, s);
    assert ServerOk(db'.servers[s]);
    forall r | r in db'.roles ensures RoleOk(db', r, db'.roles[r]) {
      assert r != s ==> RoleOk(db, r, db.roles[r]);
    }
    forall h | h in db'.held ensures HeldOk(db', h) {
      assert h in db.held ==> HeldOk(db, h);
    }
    forall c | c in db'.invites ensures InviteOk(db', db'.invites[c]) {
      assert InviteOk(db, db.invites[c]);
    }
  }

  /**
   * A new server has its creator as owner and only member and nobody banned; the
   * creator may do everything there, anybody else what @everyone may, and no
   * rights in any other server change.
   */
  lemma CreatedServer(db: Db, u: User, s: Sid, v: User, x: Sid)
    requires Inv(db) && CreateServer(db, u, s).1 == Done
    ensures var db' := CreateServer(db, u, s).0;
            && (IsMember(db', s, v) <==> v == u) && v !in db'.servers[s].bans && db'.servers[s].memberCount == 1
            && PermsOf(db', s, v) == (if v == u then All() else DefaultEveryone())
            && (x in db.servers ==> x in db'.servers && db'.servers[x] == db.servers[x])
            && (x != s ==> PermsOf(db', x, v) == PermsOf(db, x, v))
  {
    NewServerPerms(db, u, s, v);
    if x != s {
      OtherServerPerms(db, u, s, v, x);
    }
  }

  lemma NewServerPerms(db: Db, u: User, s: Sid, v: User)
    requires Inv(db) && s !in db.servers && s !in db.roles
    ensures PermsOf(NewServer(db, u, s), s, v) == (if v == u then All() else DefaultEveryone())
  {
    var db' := NewServer(db, u, s);
    NewServerRows(db, u, s, v);
    OneRole(db', s);
    DefaultIsKnown();
    assert db'.roles[s].perms == DefaultEveryone();
  }

  lemma OneRole(db: Db, r: Rid)
    requires r in db.roles
    ensures UnionOf(db, {r}) == db.roles[r].perms * All()
  {
  }

  lemma DefaultIsKnown()
    ensures DefaultEveryone() <= All() && ADMINISTRATOR !in DefaultEveryone()
  {
  }

  lemma NewServerRows(db: Db, u: User, s: Sid, v: User)
    requires Inv(db) && s !in db.servers && s !in db.roles
    ensures RoleRows(NewServer(db, u, s), s, v) == {s}
  {
    forall r | r in db.roles ensures db.roles[r].server != s {
      assert RoleOk(db, r, db.roles[r]);
    }
  }

  lemma OtherServerPerms(db: Db, u: User, s: Sid, v: User, x: Sid)
    requires Inv(db) && s !in db.servers && s !in db.roles && x != s
    ensures PermsOf(NewServer(db, u, s), x, v) == PermsOf(db, x, v)
  {
    var db' := NewServer(db, u, s);
    assert forall h: (Sid, User, Rid) | h.2 != s :: h in db'.held <==> h in db.held;
    assert RoleRows(db', x, v) == RoleRows(db, x, v);
    assert UnionOf(db', RoleRows(db, x, v)) == UnionOf(db, RoleRows(db, x, v));
  }

  lemma DeleteServerKeepsInv(db: Db, actor: User, s: Sid, passwordOk: bool)
    requires Inv(db)
    ensures Inv(DeleteServer(db, actor, s, passwordOk).0)
  {
    var db' := DeleteServer(db, actor, s, passwordOk).0;
    if db' != db {
      forall r | r in db'.roles ensures RoleOk(db', r, db'.roles[r]) {
        assert RoleOk(db, r, db.roles[r]);
      }
      forall h | h in db'.held ensures HeldOk(db', h) {
        assert HeldOk(db, h);
      }
      forall c | c in db'.invites ensures InviteOk(db', db'.invites[c]) {
        assert InviteOk(db, db.invites[c]);
      }
      forall x | x in db'.servers ensures x in db'.roles && db'.roles[x].server == x {
        assert x in db.roles && db.roles[x].server == x;
      }
    }
  }

  lemma RemoveMemberKeepsInv(db: Db, s: Sid, u: User)
    requires Inv(db) && s in db.servers && db.servers[s].owner != u
    ensures Inv(RemoveMember(db, s, u))
  {
    var sv := db.servers[s];
    assert ServerOk(sv);
    var left := sv.members - {u};
    var held := set h | h in db.held && !(h.0 == s && h.1 == u);
    forall h | h in held && h.0 == s ensures h.1 in left {
      assert HeldOk(db, h);
    }
    ServerRowChanges(db, s, sv.(members := left, memberCount := |left|), held);
  }

  lemma CreateBanKeepsInv(db: Db, actor: User, s: Sid, target: User)
    requires Inv(db)
    ensures Inv(CreateBan(db, actor, s, target).0)
  {
    var db' := CreateBan(db, actor, s, target).0;
    if db' != db {
      RemoveMemberKeepsInv(db, s, target);
      var removed := RemoveMember(db, s, target);
      var sv := removed.servers[s];
      assert ServerOk(sv) && target !in sv.members;
      forall h | h in removed.held && h.0 == s ensures h.1 in sv.members {
        assert HeldOk(removed, h);
      }
      ServerRowChanges(removed, s, sv.(bans := sv.bans + {target}), removed.held);
    }
  }

  /** A change of a server's owner or bans that keeps its row consistent. */
  lemma RowKeepsInv(db: Db, s: Sid, sv: Server)
    requires Inv(db) && s in db.servers && ServerOk(sv) && sv.members == db.servers[s].members
    ensures Inv(db.(servers := db.servers[s := sv]))
  {
    forall h | h in db.held && h.0 == s ensures h.1 in sv.members {
      assert HeldOk(db, h);
    }
    ServerRowChanges(db, s, sv, db.held);
  }

  lemma UseInviteKeepsInv(db: Db, u: User, code: Code, now: int)
    requires Inv(db)
    ensures Inv(UseInvite(db, u, code, now).0)
  {
    var db' := UseInvite(db, u, code, now).0;
    if db' != db {
      var i := db.invites[code];
      assert InviteOk(db, i) && ServerOk(db.servers[i.server]);
      forall r | r in db'.roles ensures RoleOk(db', r, db'.roles[r]) {
        assert RoleOk(db, r, db.roles[r]);
      }
      forall h | h in db'.held ensures HeldOk(db', h) {
        if h in db.held {
          assert HeldOk(db, h);
        }
      }
      forall c | c in db'.invites ensures InviteOk(db', db'.invites[c]) {
        assert InviteOk(db, db.invites[c]);
      }
    }
  }

  lemma {:induction false} GiveRolesKeepsInv(db: Db, s: Sid, target: User, ids: seq<Rid>)
    requires Inv(db)
    ensures Inv(GiveRoles(db, s, target, ids).0)
    ensures GiveRoles(db, s, target, ids).0.roles == db.roles && GiveRoles(db, s, target, ids).0.servers == db.servers
    decreases |ids|
  {
    if ids != [] && ids[0] in db.roles && IsMember(db, s, target) {
      var held := db.held + {(s, target, ids[0])};
      HeldRowsChange(db, held);
      GiveRolesKeepsInv(db.(held := held), s, target, ids[1..]);
    }
  }

  lemma UpdateMemberKeepsInv(db: Db, actor: User, s: Sid, target: User, ids: seq<Rid>)
    requires Inv(db)
    ensures Inv(UpdateMember(db, actor, s, target, ids).0)
  {
    var dropped := DropRoles(db, s, target);
    HeldRowsChange(db, dropped.held);
    GiveRolesKeepsInv(dropped, s, target, ids);
  }

  lemma PermsKnown(db: Db, s: Sid, u: User)
    ensures PermsOf(db, s, u) <= All()
  {
  }

  lemma CreateRoleKeepsInv(db: Db, actor: User, s: Sid, r: Rid, perms: Word)
    requires Inv(db)
    ensures Inv(CreateRole(db, actor, s, r, perms).0)
  {
    var role := Role(s, perms, NextPosition(db, s), false);
    CreateRoleOutcome(db, actor, s, r, perms, role);
    if CreateRole(db, actor, s, r, perms).0 != db {
      NewRoleKeepsInv(db, s, r, role);
    }
  }

  lemma CreateRoleOutcome(db: Db, actor: User, s: Sid, r: Rid, perms: Word, role: Role)
    requires role == Role(s, perms, NextPosition(db, s), false)
    ensures var db' := CreateRole(db, actor, s, r, perms).0;
            || db' == db
            || (IsMember(db, s, actor) && r !in db.roles && perms <= All() && db' == db.(roles := db.roles[r := role]))
  {
    PermsKnown(db, s, actor);
  }

  lemma NewRoleKeepsInv(db: Db, s: Sid, r: Rid, role: Role)
    requires Inv(db) && s in db.servers && r !in db.roles
    requires role.server == s && role.perms <= All() && !role.isDefault
    ensures Inv(db.(roles := db.roles[r := role]))
  {
    assert s in db.roles;
    RoleRowChanges(db, r, role);
  }

  lemma UpdateRoleKeepsInv(db: Db, actor: User, s: Sid, r: Rid, perms: Option<Word>, position: Option<I32>)
    requires Inv(db)
    ensures Inv(UpdateRole(db, actor, s, r, perms, position).0)
  {
    PermsKnown(db, s, actor);
    var db' := UpdateRole(db, actor, s, r, perms, position).0;
    if db' != db {
      assert RoleOk(db, r, db.roles[r]);
      RoleRowChanges(db, r, db'.roles[r]);
    }
  }

  lemma DeleteRoleKeepsInv(db: Db, actor: User, s: Sid, r: Rid)
    requires Inv(db)
    ensures Inv(DeleteRole(db, actor, s, r).0)
  {
    var db' := DeleteRole(db, actor, s, r).0;
    if db' != db {
      assert RoleOk(db, r, db.roles[r]);
      forall x | x in db'.roles ensures RoleOk(db', x, db'.roles[x]) {
        assert RoleOk(db, x, db.roles[x]);
      }
      forall h | h in db'.held ensures HeldOk(db', h) {
        assert HeldOk(db, h);
      }
      forall c | c in db'.invites ensures InviteOk(db', db'.invites[c]) {
        assert InviteOk(db, db.invites[c]);
      }
      forall x | x in db'.servers ensures x in db'.roles && db'.roles[x].server == x {
        assert x in db.roles && db.roles[x].server == x;
      }
    }
  }

  lemma {:induction false} PlaceRolesKeepsInv(db: Db, s: Sid, updates: seq<Placement>)
    requires Inv(db)
    ensures Inv(PlaceRoles(db, s, updates))
    decreases |updates|
  {
    if updates != [] {
      var r := updates[0].role;
      if r in db.roles && db.roles[r].server == s {
        assert RoleOk(db, r, db.roles[r]);
        var role := db.roles[r].(position := updates[0].position);
        RoleRowChanges(db, r, role);
        PlaceRolesKeepsInv(db.(roles := db.roles[r := role]), s, updates[1..]);
      } else {
        PlaceRolesKeepsInv(db, s, updates[1..]);
      }
    }
  }

  lemma MemberStepKeepsInv(db: Db, step: Step)
    requires Inv(db)
    requires step.StepTransfer? || step.StepKick? || step.StepLeave? || step.StepUnban?
    ensures Inv(Apply(db, step))
  {
    if Apply(db, step) != db {
      var s := step.server;
      assert ServerOk(db.servers[s]);
      match step
      case StepTransfer(_, _, u) => RowKeepsInv(db, s, db.servers[s].(owner := u));
      case StepKick(_, _, u) => RemoveMemberKeepsInv(db, s, u);
      case StepLeave(u, _) => RemoveMemberKeepsInv(db, s, u);
      case StepUnban(_, _, u) => RowKeepsInv(db, s, db.servers[s].(bans := db.servers[s].bans - {u}));
    }
  }

  lemma InviteStepKeepsInv(db: Db, step: Step)
    requires Inv(db) && (step.StepCreateInvite? || step.StepDeleteInvite?)
    ensures Inv(Apply(db, step))
  {
    var db' := Apply(db, step);
    var invites := db'.invites;
    assert db' == db.(invites := invites);
    forall c | c in invites ensures InviteOk(db, invites[c]) {
      if c in db.invites {
        assert InviteOk(db, db.invites[c]);
      }
    }
    InviteRowsChange(db, invites);
  }

  lemma ApplyKeepsInv(db: Db, step: Step)
    requires Inv(db)
    ensures Inv(Apply(db, step))
  {
    match step
    case StepCreateServer(a, s) => CreateServerKeepsInv(db, a, s);
    case StepDeleteServer(a, s, p) => DeleteServerKeepsInv(db, a, s, p);
    case StepBan(a, s, u) => CreateBanKeepsInv(db, a, s, u);
    case StepUseInvite(a, c, n) => UseInviteKeepsInv(db, a, c, n);
    case StepUpdateMember(a, s, u, ids) => UpdateMemberKeepsInv(db, a, s, u, ids);
    case StepCreateRole(a, s, r, p) => CreateRoleKeepsInv(db, a, s, r, p);
    case StepUpdateRole(a, s, r, p, n) => UpdateRoleKeepsInv(db, a, s, r, p, n);
    case StepDeleteRole(a, s, r) => DeleteRoleKeepsInv(db, a, s, r);
    case StepReorder(a, s, us) => PlaceRolesKeepsInv(db, s, us);
    case StepCreateInvite(_, _, _, _, _, _) => InviteStepKeepsInv(db, step);
    case StepDeleteInvite(_, _) => InviteStepKeepsInv(db, step);
    case _ => MemberStepKeepsInv(db, step);
  }

  lemma {:induction false} RunKeepsInv(db: Db, steps: seq<Step>)
    requires Inv(db)
    ensures Inv(Run(db, steps))
    decreases |steps|
  {
    if steps != [] {
      ApplyKeepsInv(db, steps[0]);
      RunKeepsInv(Apply(db, steps[0]), steps[1..]);
    }
  }

  /**
   * In every run from empty tables: the owner is a member and not banned, nobody
   * is member and banned, the member count is right, an invite has been used as
   * often as it let somebody in and never beyond its limit, and role bits are
   * known flags.
   */
  lemma EveryRun(steps: seq<Step>)
    ensures var db := Run(Db(map[], map[], {}, map[]), steps);
            && (forall s | s in db.servers ::
                  var sv := db.servers[s];
                  && sv.owner in sv.members && sv.owner !in sv.bans && sv.members !! sv.bans
                  && sv.memberCount == |sv.members|)
            && (forall c | c in db.invites ::
                  var i := db.invites[c];
                  i.uses == |i.admitted| && (i.maxUses > 0 ==> i.uses <= i.maxUses))
            && (forall r | r in db.roles :: db.roles[r].perms <= All())
  {
    var db := Run(Db(map[], map[], {}, map[]), steps);
    RunKeepsInv(Db(map[], map[], {}, map[]), steps);
    forall r | r in db.roles ensures db.roles[r].perms <= All() {
      assert RoleOk(db, r, db.roles[r]);
    }
    forall c | c in db.invites
      ensures var i := db.invites[c]; i.uses == |i.admitted| && (i.maxUses > 0 ==> i.uses <= i.maxUses)
    {
      assert InviteOk(db, db.invites[c]);
    }
  }

  // ---- No escalation

  /** All a server's roles together could grant. */
  function Ceiling(db: Db, s: Sid): Word {
    Expand(UnionOf(db, ServerRows(db, s)))
  }

  lemma CeilingHas(db: Db, s: Sid, f: nat)
    ensures f in Ceiling(db, s)
       <==> f in All() && exists r | r in db.roles ::
              db.roles[r].server == s && (f in db.roles[r].perms || ADMINISTRATOR in db.roles[r].perms)
  {
    assert ADMINISTRATOR in All();
    var rows := ServerRows(db, s);
    assert ADMINISTRATOR in UnionOf(db, rows)
      <==> exists r | r in db.roles :: db.roles[r].server == s && ADMINISTRATOR in db.roles[r].perms;
  }

  /** Nobody but the owner has more than the server's roles together grant. */
  lemma PermsBelowCeiling(db: Db, s: Sid, u: User)
    ensures !Owns(db, s, u) ==> PermsOf(db, s, u) <= Ceiling(db, s)
  {
    var rows := ServerRows(db, s);
    assert RoleRows(db, s, u) <= rows;
    assert UnionOf(db, RoleRows(db, s, u)) <= UnionOf(db, rows);
  }

  /** New role bits within what the roles already grant do not raise the ceiling. */
  lemma CeilingNotRaised(db: Db, db': Db, s: Sid)
    requires forall r, f | r in db'.roles && db'.roles[r].server == s && f in db'.roles[r].perms && f in All() ::
               f in Ceiling(db, s)
    ensures Ceiling(db', s) <= Ceiling(db, s)
  {
    forall f | f in Ceiling(db', s) ensures f in Ceiling(db, s) {
      CeilingHas(db', s, f);
      CeilingHas(db, s, f);
      assert ADMINISTRATOR in All();
      CeilingHas(db, s, ADMINISTRATOR);
    }
  }

  lemma OwnRolesBelowCeiling(db: Db, s: Sid, r: Rid)
    requires r in db.roles && db.roles[r].server == s
    ensures db.roles[r].perms * All() <= Ceiling(db, s)
  {
    forall f | f in db.roles[r].perms && f in All() ensures f in Ceiling(db, s) {
      CeilingHas(db, s, f);
    }
  }

  lemma {:induction false} PlaceRolesKeepsPerms(db: Db, s: Sid, updates: seq<Placement>)
    ensures var roles := PlaceRoles(db, s, updates).roles;
            roles.Keys == db.roles.Keys
            && forall r | r in roles :: roles[r] == db.roles[r].(position := roles[r].position)
    decreases |updates|
  {
    if updates != [] {
      var r := updates[0].role;
      var db' := if r in db.roles && db.roles[r].server == s
                 then db.(roles := db.roles[r := db.roles[r].(position := updates[0].position)]) else db;
      PlaceRolesKeepsPerms(db', s, updates[1..]);
    }
  }

  /** Where the bits of a role come from in one step. */
  lemma RoleOrigin(db: Db, step: Step, r: Rid)
    requires r in Apply(db, step).roles
    ensures var role := Apply(db, step).roles[r];
            || (r in db.roles && role.perms == db.roles[r].perms && role.server == db.roles[r].server)
            || (step.StepCreateServer? && role.server == step.server && step.server !in db.servers)
            || ((step.StepCreateRole? || step.StepUpdateRole?) && role.server == step.server
                && role.perms <= PermsOf(db, step.server, step.actor))
  {
    if step.StepReorder? {
      PlaceRolesKeepsPerms(db, step.server, step.updates);
    } else if step.StepUpdateMember? {
      GiveRolesKeepsRoles(DropRoles(db, step.server, step.target), step.server, step.target, step.ids);
    }
  }

  /**
   * A step that is not the owner's writes to a role of the server only bits
   * that were within the ceiling.
   */
  lemma StepWithinCeiling(db: Db, s: Sid, step: Step, r: Rid)
    requires s in db.servers && step.actor != db.servers[s].owner
    requires r in Apply(db, step).roles && Apply(db, step).roles[r].server == s
    ensures Apply(db, step).roles[r].perms * All() <= Ceiling(db, s)
  {
    RoleOrigin(db, step, r);
    if r in db.roles && db.roles[r].server == s {
      OwnRolesBelowCeiling(db, s, r);
    }
    PermsBelowCeiling(db, s, step.actor);
  }

  lemma {:induction false} GiveRolesKeepsRoles(db: Db, s: Sid, target: User, ids: seq<Rid>)
    ensures GiveRoles(db, s, target, ids).0.roles == db.roles && GiveRoles(db, s, target, ids).0.servers == db.servers
    ensures GiveRoles(db, s, target, ids).0.invites == db.invites
    decreases |ids|
  {
    if ids != [] && ids[0] in db.roles && IsMember(db, s, target) {
      GiveRolesKeepsRoles(db.(held := db.held + {(s, target, ids[0])}), s, target, ids[1..]);
    }
  }

  lemma {:induction false} PlaceRolesKeepsServers(db: Db, s: Sid, updates: seq<Placement>)
    ensures PlaceRoles(db, s, updates).servers == db.servers && PlaceRoles(db, s, updates).held == db.held
    ensures PlaceRoles(db, s, updates).invites == db.invites
    decreases |updates|
  {
    if updates != [] {
      var r := updates[0].role;
      var db' := if r in db.roles && db.roles[r].server == s
                 then db.(roles := db.roles[r := db.roles[r].(position := updates[0].position)]) else db;
      PlaceRolesKeepsServers(db', s, updates[1..]);
    }
  }

  predicate WritesMembers(step: Step) {
    step.StepKick? || step.StepBan? || step.StepLeave? || step.StepUnban? || step.StepUseInvite?
  }

  lemma MemberStepsKeepOwner(db: Db, step: Step, s: Sid)
    requires WritesMembers(step) && s in db.servers
    ensures s in Apply(db, step).servers && Apply(db, step).servers[s].owner == db.servers[s].owner
  {
    match step
    case StepKick(a, x, u) => RemovalKeepsOwner(db, a, x, u, s);
    case StepBan(a, x, u) => RemovalKeepsOwner(db, a, x, u, s);
    case StepLeave(_, _) =>
    case StepUnban(_, _, _) =>
    case StepUseInvite(_, _, _) =>
  }

  lemma RemovalKeepsOwner(db: Db, actor: User, x: Sid, target: User, s: Sid)
    requires s in db.servers
    ensures var kicked, banned := KickMember(db, actor, x, target).0, CreateBan(db, actor, x, target).0;
            && s in kicked.servers && kicked.servers[s].owner == db.servers[s].owner
            && s in banned.servers && banned.servers[s].owner == db.servers[s].owner
  {
  }

  lemma OthersKeepMembers(db: Db, step: Step, s: Sid)
    requires !WritesMembers(step) && s in db.servers && s in Apply(db, step).servers
    ensures var sv, sv' := db.servers[s], Apply(db, step).servers[s];
            sv'.members == sv.members && sv'.bans == sv.bans
  {
    RolesLeaveServers(db, step);
  }

  /** Steps on roles, role rows and the members' roles write no server row. */
  lemma RolesLeaveServers(db: Db, step: Step)
    ensures step.StepReorder? || step.StepUpdateMember? ==> Apply(db, step).servers == db.servers
  {
    if step.StepReorder? {
      PlaceRolesKeepsServers(db, step.server, step.updates);
    } else if step.StepUpdateMember? {
      GiveRolesKeepsRoles(DropRoles(db, step.server, step.target), step.server, step.target, step.ids);
    }
  }

  lemma OwnerStays(db: Db, s: Sid, step: Step)
    requires s in db.servers && step.actor != db.servers[s].owner
    ensures s in Apply(db, step).servers && Apply(db, step).servers[s].owner == db.servers[s].owner
  {
    if WritesMembers(step) {
      MemberStepsKeepOwner(db, step, s);
    } else {
      RolesLeaveServers(db, step);
    }
  }

  /**
   * However members who are not the owner of a server create, change, reorder
   * and hand out roles, what its roles together grant never grows, and so no
   * one but the owner ever comes to hold more than the roles granted at the start.
   */
  lemma {:induction false} NoEscalation(db: Db, s: Sid, steps: seq<Step>)
    requires Inv(db) && s in db.servers
    requires forall i | 0 <= i < |steps| :: steps[i].actor != db.servers[s].owner
    ensures var db' := Run(db, steps);
            && s in db'.servers && db'.servers[s].owner == db.servers[s].owner
            && Ceiling(db', s) <= Ceiling(db, s)
            && forall u | u != db.servers[s].owner :: PermsOf(db', s, u) <= Ceiling(db, s)
    decreases |steps|
  {
    if steps == [] {
      forall u | u != db.servers[s].owner ensures PermsOf(db, s, u) <= Ceiling(db, s) {
        PermsBelowCeiling(db, s, u);
      }
    } else {
      var db1 := Apply(db, steps[0]);
      ApplyKeepsInv(db, steps[0]);
      OwnerStays(db, s, steps[0]);
      forall r | r in db1.roles && db1.roles[r].server == s ensures db1.roles[r].perms * All() <= Ceiling(db, s) {
        StepWithinCeiling(db, s, steps[0], r);
      }
      CeilingNotRaised(db, db1, s);
      NoEscalation(db1, s, steps[1..]);
    }
  }

  // ---- The two computations of permissions

  /** The list of role bits that describes a server's roles. */
  ghost predicate Describes(db: Db, s: Sid, roles: seq<RoleBits>) {
    forall id :: FindRole(roles, id) == if id in db.roles && db.roles[id].server == s then Some(db.roles[id].perms) else None
  }

  /** Without overrides, `compute_permissions` and `get_user_permissions` agree on every member. */
  lemma ComputationsAgree(db: Db, s: Sid, u: User, ids: seq<Rid>, roles: seq<RoleBits>)
    requires Inv(db) && s in db.servers && Describes(db, s, roles)
    requires forall r :: r in ids <==> HasRow(db, u, r)
    ensures Effective(Owns(db, s, u), ids, db.roles[s].perms, roles, None, u, s) == PermsOf(db, s, u)
  {
    assert ADMINISTRATOR in All();
    var w := UnionOf(db, RoleRows(db, s, u));
    forall f | f in All() ensures f in w <==> BaseHas(ids, db.roles[s].perms, roles, f) {
      BaseIsUnion(db, s, u, ids, roles, f);
    }
  }

  lemma BaseIsUnion(db: Db, s: Sid, u: User, ids: seq<Rid>, roles: seq<RoleBits>, f: nat)
    requires Inv(db) && s in db.servers && Describes(db, s, roles) && f in All()
    requires forall r :: r in ids <==> HasRow(db, u, r)
    ensures f in UnionOf(db, RoleRows(db, s, u)) <==> BaseHas(ids, db.roles[s].perms, roles, f)
  {
    assert RoleOk(db, s, db.roles[s]);
    if f in UnionOf(db, RoleRows(db, s, u)) {
      var r :| r in RoleRows(db, s, u) && f in db.roles[r].perms;
      assert RoleOk(db, r, db.roles[r]);
      if r != s {
        assert r in ids && RoleGrants(roles, r, f);
      }
    }
    if f in db.roles[s].perms {
      assert s in RoleRows(db, s, u);
    } else if BaseHas(ids, db.roles[s].perms, roles, f) {
      var r :| r in ids && RoleGrants(roles, r, f);
      assert r in RoleRows(db, s, u);
    }
  }
}
