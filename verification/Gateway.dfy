/** The sessions of one gateway instance: two maps kept in step, and the sessions parked for resuming. */
module GatewaySessions {
  import opened Options

  type SessionId = nat
  type User = nat
  type Connection = nat
  type Message = nat

  /** Capacity of a session's outbound channel. */
  const CAPACITY := 1024

  datatype Session = Session(user: User, sequence: nat, queue: seq<Message>)

  /** Live sessions by id, and each user's session ids. */
  datatype Manager = Manager(sessions: map<SessionId, Session>, index: map<User, seq<SessionId>>)

  /** `try_send`: a full channel drops the message. */
  function Offer(s: Session, msg: Message): Session {
    if |s.queue| < CAPACITY then s.(queue := s.queue + [msg]) else s
  }

  function IdsOf(m: Manager, user: User): seq<SessionId> {
    if user in m.index then m.index[user] else []
  }

  /** `retain(|s| s != id)` */
  function Retain(ids: seq<SessionId>, id: SessionId): seq<SessionId> {
    if ids == [] then []
    else (if ids[0] == id then [] else [ids[0]]) + Retain(ids[1..], id)
  }

  function Register(m: Manager, id: SessionId, s: Session): Manager {
    Manager(m.sessions[id := s], m.index[s.user := IdsOf(m, s.user) + [id]])
  }

  function Remove(m: Manager, id: SessionId): Manager {
    if id !in m.sessions then m
    else
      var user := m.sessions[id].user;
      var left := Retain(IdsOf(m, user), id);
      Manager(m.sessions - {id},
              if user !in m.index then m.index
              else if left == [] then m.index - {user}
              else m.index[user := left])
  }

  /** Every live session of the user is offered the message once, every other session not at all. */
  function Dispatch(m: Manager, user: User, msg: Message): Manager {
    m.(sessions := map id | id in m.sessions ::
                     if m.sessions[id].user == user then Offer(m.sessions[id], msg) else m.sessions[id])
  }

  ghost predicate Distinct(ids: seq<SessionId>) {
    forall i, j | 0 <= i < j < |ids| :: ids[i] != ids[j]
  }

  /** The index lists exactly each user's live sessions, none twice, and has no empty lists. */
  ghost predicate InStep(m: Manager) {
    && (forall u | u in m.index :: m.index[u] != [] && Distinct(m.index[u]))
    && (forall u, id | u in m.index && id in m.index[u] :: id in m.sessions && m.sessions[id].user == u)
    && (forall id | id in m.sessions :: id in IdsOf(m, m.sessions[id].user))
  }

  lemma {:induction false} RetainIsFilter(ids: seq<SessionId>, id: SessionId)
    requires Distinct(ids)
    ensures Distinct(Retain(ids, id))
    ensures forall x :: x in Retain(ids, id) <==> x in ids && x != id
  {
    if ids != [] {
      var rest := ids[1..];
      assert forall i | 0 <= i < |rest| :: rest[i] == ids[i + 1];
      RetainIsFilter(rest, id);
      assert ids[0] !in rest && ids == [ids[0]] + rest;
    }
  }

  lemma RegisterKeepsStep(m: Manager, id: SessionId, s: Session)
    requires InStep(m) && id !in m.sessions
    ensures InStep(Register(m, id, s))
  {
    var m' := Register(m, id, s);
    assert id !in IdsOf(m, s.user);
    forall x | x in m'.sessions ensures x in IdsOf(m', m'.sessions[x].user) {
      if x != id {
        assert x in IdsOf(m, m.sessions[x].user);
      }
    }
  }

  lemma RemoveKeepsStep(m: Manager, id: SessionId)
    requires InStep(m)
    ensures InStep(Remove(m, id))
  {
    if id in m.sessions {
      var user := m.sessions[id].user;
      assert id in IdsOf(m, user);
      RetainIsFilter(m.index[user], id);
      var left, m' := Retain(m.index[user], id), Remove(m, id);
      forall x | x in m'.sessions ensures x in IdsOf(m', m'.sessions[x].user) {
        assert x in IdsOf(m, m.sessions[x].user);
      }
    }
  }

  lemma DispatchKeepsStep(m: Manager, user: User, msg: Message)
    requires InStep(m)
    ensures InStep(Dispatch(m, user, msg))
  {
    var m' := Dispatch(m, user, msg);
    forall x | x in m'.sessions ensures x in IdsOf(m', m'.sessions[x].user) {
      assert x in IdsOf(m, m.sessions[x].user);
    }
  }

  /**
   * Every live session of the user with fewer than 1024 messages queued has the
   * message at the end of its queue; a full one, every other session, sequence
   * numbers, users and the index are as before.
   */
  ghost predicate Delivered(m: Manager, m': Manager, user: User, msg: Message) {
    && m'.sessions.Keys == m.sessions.Keys && m'.index == m.index
    && forall id | id in m.sessions ::
         && m'.sessions[id].user == m.sessions[id].user && m'.sessions[id].sequence == m.sessions[id].sequence
         && m'.sessions[id].queue == if m.sessions[id].user == user && |m.sessions[id].queue| < 1024
                                     then m.sessions[id].queue + [msg] else m.sessions[id].queue
  }

  lemma DispatchDelivers(m: Manager, user: User, msg: Message)
    ensures Delivered(m, Dispatch(m, user, msg), user, msg)
  {
  }

  lemma RegisteredInStep(m: Manager, id: SessionId, s: Session)
    ensures InStep(m) && id !in m.sessions ==> InStep(Register(m, id, s))
  {
    if InStep(m) && id !in m.sessions {
      RegisterKeepsStep(m, id, s);
    }
  }

  /** The same ids in the same order, but for the one. */
  ghost predicate Without(ids: seq<SessionId>, left: seq<SessionId>, id: SessionId) {
    if id in ids then exists i :: 0 <= i < |ids| && ids[i] == id && left == ids[..i] + ids[i + 1..]
    else left == ids
  }

  lemma {:induction false} RetainIsWithout(ids: seq<SessionId>, id: SessionId)
    requires Distinct(ids)
    ensures Without(ids, Retain(ids, id), id)
  {
    if ids != [] {
      var rest := ids[1..];
      assert forall i | 0 <= i < |rest| :: rest[i] == ids[i + 1];
      RetainIsWithout(rest, id);
      WithoutCons(ids[0], rest, Retain(rest, id), id);
      assert ids == [ids[0]] + rest && (ids[0] == id ==> id !in rest);
    }
  }

  lemma WithoutCons(first: SessionId, rest: seq<SessionId>, left: seq<SessionId>, id: SessionId)
    requires Without(rest, left, id) && (first == id ==> id !in rest)
    ensures Without([first] + rest, (if first == id then [] else [first]) + left, id)
  {
    var ids := [first] + rest;
    if first == id {
      assert ids[0] == id && ids[..0] + ids[0 + 1..] == [] + left;
    } else if id in rest {
      var i :| 0 <= i < |rest| && rest[i] == id && left == rest[..i] + rest[i + 1..];
      assert ids[i + 1] == id && ids[..i + 1] + ids[i + 1 + 1..] == [first] + left;
    }
  }

  lemma RemovedInStep(m: Manager, id: SessionId)
    ensures InStep(m) ==> InStep(Remove(m, id)) && forall u :: Without(IdsOf(m, u), IdsOf(Remove(m, id), u), id)
  {
    if InStep(m) {
      RemoveKeepsStep(m, id);
      forall u ensures Without(IdsOf(m, u), IdsOf(Remove(m, id), u), id) {
        if id in m.sessions && u == m.sessions[id].user {
          RetainIsWithout(IdsOf(m, u), id);
        }
      }
    }
  }

  class SessionManager {
    var sessions: map<SessionId, Session>
    var userSessions: map<User, seq<SessionId>>

    function View(): Manager
      reads this
    {
      Manager(sessions, userSessions)
    }

    constructor ()
      ensures View() == Manager(map[], map[])
    {
      sessions, userSessions := map[], map[];
    }

    method RegisterSession(id: SessionId, session: Session)
      modifies this
      ensures sessions == old(sessions)[id := session]
      ensures session.user in userSessions && userSessions[session.user] == IdsOf(old(View()), session.user) + [id]
      ensures forall u | u != session.user ::
                (u in userSessions <==> u in old(userSessions)) && (u in userSessions ==> userSessions[u] == old(userSessions)[u])
      ensures InStep(old(View())) && id !in old(sessions) ==> InStep(View())
      ensures View() == Register(old(View()), id, session)
    {
      RegisteredInStep(View(), id, session);
      sessions := sessions[id := session];
      if session.user !in userSessions {
        userSessions := userSessions[session.user := []];
      }
      userSessions := userSessions[session.user := userSessions[session.user] + [id]];
      assert userSessions == Register(old(View()), id, session).index;
    }

    method RemoveSession(id: SessionId) returns (removed: Option<Session>)
      modifies this
      ensures sessions == old(sessions) - {id}
      ensures InStep(old(View())) ==> InStep(View())
      ensures InStep(old(View())) ==> forall u :: Without(IdsOf(old(View()), u), IdsOf(View(), u), id)
      ensures View() == Remove(old(View()), id)
      ensures removed == if id in old(sessions) then Some(old(sessions)[id]) else None
    {
      RemovedInStep(View(), id);
      if id !in sessions {
        return None;
      }
      var session := sessions[id];
      sessions := sessions - {id};
      if session.user in userSessions {
        var ids := Retain(userSessions[session.user], id);
        userSessions := userSessions[session.user := ids];
        if ids == [] {
          userSessions := userSessions - {session.user};
        }
        assert userSessions == Remove(old(View()), id).index;
      }
      return Some(session);
    }

    /** One `try_send` for every id listed that is live. */
    method OfferAll(ids: seq<SessionId>, msg: Message)
      requires Distinct(ids)
      modifies this`sessions
      ensures sessions.Keys == old(sessions).Keys
      ensures forall id | id in sessions ::
                sessions[id] == if id in ids then Offer(old(sessions)[id], msg) else old(sessions)[id]
    {
      var i := 0;
      while i < |ids|
        invariant 0 <= i <= |ids|
        invariant sessions.Keys == old(sessions).Keys
        invariant forall id | id in sessions ::
                    sessions[id] == if id in ids[..i] then Offer(old(sessions)[id], msg) else old(sessions)[id]
      {
        var id := ids[i];
        assert id !in ids[..i];
        assert ids[..i + 1] == ids[..i] + [id];
        if id in sessions {
          sessions := sessions[id := Offer(sessions[id], msg)];
        }
        i := i + 1;
      }
      assert ids[..i] == ids;
    }

    /** `dispatch_to_user`: one `try_send` for every id listed. */
    method DispatchToUser(user: User, msg: Message)
      requires InStep(View())
      modifies this`sessions
      ensures Delivered(old(View()), View(), user, msg) && InStep(View())
      ensures View() == Dispatch(old(View()), user, msg)
    {
      ghost var before := View();
      if user in userSessions {
        OfferAll(userSessions[user], msg);
      }
      assert View() == Dispatch(before, user, msg) by {
        assert forall id | id in old(sessions) :: old(sessions)[id].user == user <==> id in IdsOf(before, user);
      }
      DispatchKeepsStep(before, user, msg);
      DispatchDelivers(before, user, msg);
    }

    /** `fetch_add(1) + 1` */
    method NextSequence(id: SessionId) returns (sequence: nat)
      requires id in sessions
      modifies this`sessions
      ensures sequence == old(sessions)[id].sequence + 1
      ensures sessions == old(sessions)[id := old(sessions)[id].(sequence := sequence)]
    {
      sequence := sessions[id].sequence + 1;
      sessions := sessions[id := sessions[id].(sequence := sequence)];
    }
  }

  // ---- Connections

  datatype Parked = Parked(user: User, sequence: nat)

  /** `used` are the ids ever given out: history, standing for the randomness of fresh ids. */
  datatype State = State(
    manager: Manager,
    parked: map<SessionId, Parked>,
    connections: map<Connection, Option<SessionId>>,
    used: set<SessionId>)

  datatype Step =
    | Connect(conn: Connection)
    | Identify(conn: Connection, user: User, newId: SessionId)
    | Resume(conn: Connection, user: User, session: SessionId, sequence: nat)
    | Close(conn: Connection)
    | Expire(session: SessionId)
    | Deliver(user: User, message: Message)

  function Initial(): State {
    State(Manager(map[], map[]), map[], map[], {})
  }

  /** The end of a connection: its session is parked and taken out of the maps. */
  function Cleanup(s: State, conn: Connection): State
    requires conn in s.connections
  {
    var closed := s.(connections := s.connections - {conn});
    match s.connections[conn]
    case None => closed
    case Some(id) =>
      if id !in s.manager.sessions then closed
      else
        var session := s.manager.sessions[id];
        closed.(parked := s.parked[id := Parked(session.user, session.sequence)], manager := Remove(s.manager, id))
  }

  function Start(s: State, conn: Connection, id: SessionId, session: Session): State {
    s.(manager := Register(s.manager, id, session), connections := s.connections[conn := Some(id)],
       used := s.used + {id})
  }

  function Next(s: State, step: Step): State {
    match step
    case Connect(c) => if c in s.connections then s else s.(connections := s.connections[c := None])
    case Identify(c, user, id) =>
      if c !in s.connections || id in s.used then s
      else if s.connections[c].Some? then Cleanup(s, c)
      else Start(s, c, id, Session(user, 0, []))
    case Resume(c, user, id, sequence) =>
      if c !in s.connections then s
      else if id !in s.parked || s.parked[id].user != user then Cleanup(s, c)
      else Start(s.(parked := s.parked - {id}), c, id, Session(user, sequence, []))
    case Close(c) => if c in s.connections then Cleanup(s, c) else s
    case Expire(id) => s.(parked := s.parked - {id})
    case Deliver(user, msg) => s.(manager := Dispatch(s.manager, user, msg))
  }

  function Run(s: State, steps: seq<Step>): State
    decreases |steps|
  {
    if steps == [] then s else Run(Next(s, steps[0]), steps[1..])
  }

  ghost predicate Inv(s: State) {
    && InStep(s.manager)
    && s.manager.sessions.Keys !! s.parked.Keys
    && s.manager.sessions.Keys <= s.used && s.parked.Keys <= s.used
    && (forall c | c in s.connections && s.connections[c].Some? :: s.connections[c].value in s.manager.sessions)
    && (forall c, d | c in s.connections && d in s.connections && c != d && s.connections[c].Some? ::
          s.connections[c] != s.connections[d])
  }

  lemma CleanupKeepsInv(s: State, conn: Connection)
    requires Inv(s) && conn in s.connections
    ensures Inv(Cleanup(s, conn))
  {
    if s.connections[conn].Some? {
      RemoveKeepsStep(s.manager, s.connections[conn].value);
    }
  }

  lemma StartKeepsInv(s: State, conn: Connection, id: SessionId, session: Session)
    requires Inv(s) && conn in s.connections && id !in s.manager.sessions && id !in s.parked
    ensures Inv(Start(s, conn, id, session))
  {
    RegisterKeepsStep(s.manager, id, session);
  }

  lemma NextKeepsInv(s: State, step: Step)
    requires Inv(s)
    ensures Inv(Next(s, step))
  {
    match step
    case Identify(c, user, id) =>
      if c in s.connections && id !in s.used {
        CleanupKeepsInv(s, c);
        StartKeepsInv(s, c, id, Session(user, 0, []));
      }
    case Resume(c, user, id, sequence) =>
      if c in s.connections {
        CleanupKeepsInv(s, c);
        if id in s.parked {
          StartKeepsInv(s.(parked := s.parked - {id}), c, id, Session(user, sequence, []));
        }
      }
    case Close(c) =>
      if c in s.connections {
        CleanupKeepsInv(s, c);
      }
    case Deliver(user, msg) => DispatchKeepsStep(s.manager, user, msg);
    case _ =>
  }

  lemma {:induction false} RunKeepsInv(s: State, steps: seq<Step>)
    requires Inv(s)
    ensures Inv(Run(s, steps))
    decreases |steps|
  {
    if steps != [] {
      NextKeepsInv(s, steps[0]);
      RunKeepsInv(Next(s, steps[0]), steps[1..]);
    }
  }

  /**
   * In every run no session is both live and parked, no two connections share
   * one, and the index lists exactly each user's live sessions, none twice and
   * no list empty.
   */
  lemma SessionsStayInStep(steps: seq<Step>)
    ensures var s := Run(Initial(), steps);
            var m := s.manager;
            && m.sessions.Keys !! s.parked.Keys
            && (forall u, id :: id in IdsOf(m, u) <==> id in m.sessions && m.sessions[id].user == u)
            && (forall u | u in m.index :: m.index[u] != [] && Distinct(m.index[u]))
            && (forall c, d | c in s.connections && d in s.connections && c != d && s.connections[c].Some? ::
                  s.connections[c] != s.connections[d])
  {
    RunKeepsInv(Initial(), steps);
  }

  // ---- What each step does to sessions

  /** A connection identifies once: a fresh session then starts at sequence 0 with an empty queue. */
  lemma IdentifyOutcome(s: State, conn: Connection, user: User, id: SessionId)
    requires Inv(s) && conn in s.connections && s.connections[conn].None? && id !in s.used
    ensures var s' := Next(s, Identify(conn, user, id));
            && s'.manager.sessions == s.manager.sessions[id := Session(user, 0, [])]
            && s'.connections == s.connections[conn := Some(id)] && s'.parked == s.parked
  {
  }

  /** A connection that ends parks its session, if it has one, under its user and sequence. */
  lemma CloseOutcome(s: State, conn: Connection)
    requires Inv(s) && conn in s.connections
    ensures var s' := Next(s, Close(conn));
            && s'.connections == s.connections - {conn}
            && match s.connections[conn]
               case None => s'.manager == s.manager && s'.parked == s.parked
               case Some(id) =>
                 && s'.manager.sessions == s.manager.sessions - {id}
                 && s'.parked == s.parked[id := Parked(s.manager.sessions[id].user, s.manager.sessions[id].sequence)]
  {
  }

  /** A resume succeeds exactly for a parked session of the same user; otherwise the connection ends. */
  lemma ResumeOutcome(s: State, conn: Connection, user: User, id: SessionId, sequence: nat)
    requires Inv(s) && conn in s.connections
    ensures var s' := Next(s, Resume(conn, user, id, sequence));
            && (conn in s'.connections <==> id in s.parked && s.parked[id].user == user)
            && (if id in s.parked && s.parked[id].user == user then
                  && s'.manager.sessions == s.manager.sessions[id := Session(user, sequence, [])]
                  && s'.connections == s.connections[conn := Some(id)] && s'.parked == s.parked - {id}
                else s' == Next(s, Close(conn)))
  {
  }

  /** A parked session that has expired cannot be resumed. */
  lemma ExpiredCannotResume(s: State, conn: Connection, user: User, id: SessionId, sequence: nat)
    requires conn in s.connections
    ensures var s' := Next(s, Expire(id));
            && s' == s.(parked := s.parked - {id}) && Next(s', Resume(conn, user, id, sequence)) == Next(s', Close(conn))
  {
  }

  /** Identifying a second time ends the connection. */
  lemma SecondIdentify(s: State, conn: Connection, user: User, id: SessionId)
    requires Inv(s) && conn in s.connections && s.connections[conn].Some? && id !in s.used
    ensures Next(s, Identify(conn, user, id)) == Next(s, Close(conn))
  {
  }

  // ---- Queues

  /** The messages delivered to a user, in order. */
  function AddressedTo(steps: seq<Step>, user: User): seq<Message> {
    if steps == [] then []
    else (if steps[0].Deliver? && steps[0].user == user then [steps[0].message] else []) + AddressedTo(steps[1..], user)
  }

  /** The session is live before the run and after every step of it. */
  ghost predicate StaysLive(s: State, steps: seq<Step>, id: SessionId)
    decreases |steps|
  {
    id in s.manager.sessions && (steps == [] || StaysLive(Next(s, steps[0]), steps[1..], id))
  }

  function First(messages: seq<Message>): seq<Message> {
    if |messages| <= 1024 then messages else messages[..1024]
  }

  lemma LiveStep(s: State, step: Step, id: SessionId)
    requires Inv(s) && id in s.manager.sessions && id in Next(s, step).manager.sessions
    ensures var a, b := s.manager.sessions[id], Next(s, step).manager.sessions[id];
            && b.user == a.user && b.sequence == a.sequence
            && b.queue == if step.Deliver? && step.user == a.user && |a.queue| < 1024
                          then a.queue + [step.message] else a.queue
  {
  }

  lemma FirstAppend(queue: seq<Message>, msg: Message, rest: seq<Message>)
    requires |queue| <= 1024
    ensures First((if |queue| < 1024 then queue + [msg] else queue) + rest) == First(queue + ([msg] + rest))
  {
  }

  /**
   * While a session stays live its queue, which nobody reads, is what it held and
   * then the messages delivered to its user, in order, up to the first 1024.
   */
  lemma {:induction false} QueueIsFirst(s: State, steps: seq<Step>, id: SessionId)
    requires Inv(s) && StaysLive(s, steps, id) && |s.manager.sessions[id].queue| <= 1024
    ensures var a := s.manager.sessions[id];
            && id in Run(s, steps).manager.sessions
            && Run(s, steps).manager.sessions[id] == Session(a.user, a.sequence, First(a.queue + AddressedTo(steps, a.user)))
    decreases |steps|
  {
    var a := s.manager.sessions[id];
    if steps == [] {
      assert a.queue + [] == a.queue;
    } else {
      LiveStep(s, steps[0], id);
      NextKeepsInv(s, steps[0]);
      QueueIsFirst(Next(s, steps[0]), steps[1..], id);
      var rest := AddressedTo(steps[1..], a.user);
      if steps[0].Deliver? && steps[0].user == a.user {
        FirstAppend(a.queue, steps[0].message, rest);
      } else {
        assert [] + rest == rest;
      }
    }
  }

  /** So from its start it holds the first 1024 messages delivered to its user since. */
  lemma QueueSinceStart(before: seq<Step>, conn: Connection, user: User, id: SessionId, steps: seq<Step>)
    requires var s := Run(Initial(), before);
             && conn in s.connections && s.connections[conn].None? && id !in s.used
             && StaysLive(Next(s, Identify(conn, user, id)), steps, id)
    ensures var s1 := Next(Run(Initial(), before), Identify(conn, user, id));
            && id in Run(s1, steps).manager.sessions
            && Run(s1, steps).manager.sessions[id] == Session(user, 0, First(AddressedTo(steps, user)))
  {
    var s := Run(Initial(), before);
    RunKeepsInv(Initial(), before);
    IdentifyOutcome(s, conn, user, id);
    NextKeepsInv(s, Identify(conn, user, id));
    QueueIsFirst(Next(s, Identify(conn, user, id)), steps, id);
    assert [] + AddressedTo(steps, user) == AddressedTo(steps, user);
  }

  // ---- Sessions without a connection

  /** Every live session is on a connection. */
  ghost predicate Attached(s: State) {
    forall id | id in s.manager.sessions :: exists c :: OnConnection(s, c, id)
  }

  ghost predicate OnConnection(s: State, c: Connection, id: SessionId) {
    c in s.connections && s.connections[c] == Some(id)
  }

  /** A resume that succeeds on a connection that already has a session. */
  predicate Replaces(s: State, step: Step) {
    && step.Resume? && step.conn in s.connections && s.connections[step.conn].Some?
    && step.session in s.parked && s.parked[step.session].user == step.user
  }

  lemma CleanupKeepsAttached(s: State, conn: Connection)
    requires Inv(s) && Attached(s) && conn in s.connections
    ensures Attached(Cleanup(s, conn))
  {
    var s' := Cleanup(s, conn);
    forall id | id in s'.manager.sessions ensures exists c :: OnConnection(s', c, id) {
      var c :| OnConnection(s, c, id);
      assert OnConnection(s', c, id);
    }
  }

  lemma StartKeepsAttached(s: State, conn: Connection, id: SessionId, session: Session)
    requires Attached(s) && conn in s.connections && s.connections[conn].None?
    ensures Attached(Start(s, conn, id, session))
  {
    var s' := Start(s, conn, id, session);
    forall x | x in s'.manager.sessions ensures exists c :: OnConnection(s', c, x) {
      if x == id {
        assert OnConnection(s', conn, id);
      } else {
        var c :| OnConnection(s, c, x);
        assert OnConnection(s', c, x);
      }
    }
  }

  lemma OthersKeepAttached(s: State, step: Step)
    requires Attached(s) && (step.Connect? || step.Expire? || step.Deliver?)
    ensures Attached(Next(s, step))
  {
    var s' := Next(s, step);
    forall id | id in s'.manager.sessions ensures exists c :: OnConnection(s', c, id) {
      var c :| OnConnection(s, c, id);
      assert OnConnection(s', c, id);
    }
  }

  /** The session replaced stays live and listed, on no connection. */
  lemma ReplacedIsOrphan(s: State, step: Step)
    requires Inv(s) && Replaces(s, step)
    ensures var id, s' := s.connections[step.conn].value, Next(s, step);
            && id in s'.manager.sessions && id in IdsOf(s'.manager, s'.manager.sessions[id].user)
            && forall c :: !OnConnection(s', c, id)
  {
    NextKeepsInv(s, step);
  }

  /** Live sessions stay on connections in a step exactly if it is no resume on a connection that has a session. */
  lemma AttachedIff(s: State, step: Step)
    requires Inv(s) && Attached(s)
    ensures Attached(Next(s, step)) <==> !Replaces(s, step)
  {
    if Replaces(s, step) {
      ReplacedIsOrphan(s, step);
    } else if step.Identify? {
      IdentifyKeepsAttached(s, step);
    } else if step.Resume? {
      ResumeKeepsAttached(s, step);
    } else if step.Close? {
      if step.conn in s.connections {
        CleanupKeepsAttached(s, step.conn);
      }
    } else {
      OthersKeepAttached(s, step);
    }
  }

  lemma IdentifyKeepsAttached(s: State, step: Step)
    requires Inv(s) && Attached(s) && step.Identify?
    ensures Attached(Next(s, step))
  {
    if step.conn in s.connections && step.newId !in s.used {
      if s.connections[step.conn].None? {
        StartKeepsAttached(s, step.conn, step.newId, Session(step.user, 0, []));
      } else {
        CleanupKeepsAttached(s, step.conn);
      }
    }
  }

  lemma ResumeKeepsAttached(s: State, step: Step)
    requires Inv(s) && Attached(s) && step.Resume? && !Replaces(s, step)
    ensures Attached(Next(s, step))
  {
    if step.conn in s.connections {
      if step.session in s.parked && s.parked[step.session].user == step.user {
        var s1 := s.(parked := s.parked - {step.session});
        forall id | id in s1.manager.sessions ensures exists c :: OnConnection(s1, c, id) {
          var c :| OnConnection(s, c, id);
          assert OnConnection(s1, c, id);
        }
        StartKeepsAttached(s1, step.conn, step.session, Session(step.user, step.sequence, []));
      } else {
        CleanupKeepsAttached(s, step.conn);
      }
    }
  }

  ghost predicate AlwaysAttached(s: State, steps: seq<Step>)
    decreases |steps|
  {
    Attached(s) && (steps == [] || AlwaysAttached(Next(s, steps[0]), steps[1..]))
  }

  ghost predicate NeverReplaces(s: State, steps: seq<Step>)
    decreases |steps|
  {
    steps == [] || (!Replaces(s, steps[0]) && NeverReplaces(Next(s, steps[0]), steps[1..]))
  }

  lemma {:induction false} RunAttachedIff(s: State, steps: seq<Step>)
    requires Inv(s) && Attached(s)
    ensures AlwaysAttached(s, steps) <==> NeverReplaces(s, steps)
    decreases |steps|
  {
    if steps != [] {
      AttachedIff(s, steps[0]);
      if !Replaces(s, steps[0]) {
        NextKeepsInv(s, steps[0]);
        RunAttachedIff(Next(s, steps[0]), steps[1..]);
      }
    }
  }

  lemma RunThree(s: State, a: Step, b: Step, c: Step)
    ensures Run(s, [a, b, c]) == Next(Next(Next(s, a), b), c)
  {
    assert [a, b, c][1..] == [b, c] && [b, c][1..] == [c] && [c][1..] == [];
    assert Run(s, [a, b, c]) == Run(Next(s, a), [b, c]);
    assert Run(Next(s, a), [b, c]) == Run(Next(Next(s, a), b), [c]);
  }

  /** One connection identifies as session 200 and closes. */
  function Left(user: User): State {
    State(Manager(map[], map[]), map[200 := Parked(user, 0)], map[], {200})
  }

  lemma LeftBehind(user: User)
    ensures Run(Initial(), [Connect(1), Identify(1, user, 200), Close(1)]) == Left(user)
  {
    RunThree(Initial(), Connect(1), Identify(1, user, 200), Close(1));
    var s1 := Next(Initial(), Connect(1));
    var s2 := Next(s1, Identify(1, user, 200));
    assert IdsOf(Manager(map[], map[]), user) + [200] == [200];
    assert s2.manager.index == map[user := [200]] && s2.manager.sessions == map[200 := Session(user, 0, [])];
    RetainOnly(200);
    assert Remove(s2.manager, 200) == Manager(map[], map[]);
  }

  lemma RetainOnly(id: SessionId)
    ensures Retain([id], id) == []
  {
  }

  /** It happens: the next connection, on session 100, resumes session 200, and 100 is on no connection any more. */
  lemma OrphanExample(user: User)
    ensures var left := Run(Initial(), [Connect(1), Identify(1, user, 200), Close(1)]);
            var s := Run(left, [Connect(2), Identify(2, user, 100), Resume(2, user, 200, 0)]);
            && 100 in s.manager.sessions && 100 in IdsOf(s.manager, s.manager.sessions[100].user)
            && forall c :: !OnConnection(s, c, 100)
  {
    LeftBehind(user);
    RunThree(Left(user), Connect(2), Identify(2, user, 100), Resume(2, user, 200, 0));
    RunKeepsInv(Initial(), [Connect(1), Identify(1, user, 200), Close(1)]);
    var s4 := Next(Left(user), Connect(2));
    var s5 := Next(s4, Identify(2, user, 100));
    NextKeepsInv(Left(user), Connect(2));
    NextKeepsInv(s4, Identify(2, user, 100));
    ReplacedIsOrphan(s5, Resume(2, user, 200, 0));
  }

  /** A session closed and resumed in time is live again for the same user, under its old id. */
  lemma CloseThenResume(s: State, c: Connection, d: Connection, id: SessionId, sequence: nat)
    requires Inv(s) && c in s.connections && s.connections[c] == Some(id) && d in s.connections && c != d
    ensures var user := s.manager.sessions[id].user;
            var s1 := Next(s, Close(c));
            var s2 := Next(s1, Resume(d, user, id, sequence));
            && id !in s1.manager.sessions && id in s1.parked
            && s1.parked[id] == Parked(user, s.manager.sessions[id].sequence)
            && id in s2.manager.sessions && id !in s2.parked && s2.connections[d] == Some(id)
            && s2.manager.sessions[id] == Session(user, sequence, [])
            && id in IdsOf(s2.manager, user)
  {
  }
}

/** The log of a session's recent events, and its replay when the session is resumed. */
module ReplayBuffer {
  import opened Options
  import opened Integers

  const LIMIT := 1000
  const CAPACITY := 1024

  datatype Event = Event(isDispatch: bool, sequence: Option<nat>, payload: nat)

  /** `LTRIM key -1000 -1` */
  function Trim(list: seq<Event>): seq<Event> {
    if |list| > LIMIT then list[|list| - LIMIT..] else list
  }

  function Buffered(list: seq<Event>, event: Event): seq<Event> {
    if event.isDispatch then Trim(list + [event]) else list
  }

  predicate IsUnseen(event: Event, last: nat) {
    event.sequence.Some? && event.sequence.value > last
  }

  function Unseen(list: seq<Event>, last: nat): seq<Event> {
    if list == [] then []
    else (if IsUnseen(list[0], last) then [list[0]] else []) + Unseen(list[1..], last)
  }

  /** What a run of `try_send` leaves in a channel nobody reads from. */
  function Sent(queue: seq<Event>, events: seq<Event>): seq<Event>
    requires |queue| <= CAPACITY
  {
    var room := CAPACITY - |queue|;
    queue + if |events| <= room then events else events[..room]
  }

  /** Buffering an event, or the buffer being deleted by a replay or by its expiry. */
  datatype Op = Push(event: Event) | Clear

  function Step(list: seq<Event>, op: Op): seq<Event> {
    if op.Clear? then [] else Buffered(list, op.event)
  }

  class Buffer {
    var list: seq<Event>

    constructor ()
      ensures list == []
    {
      list := [];
    }

    method BufferEvent(event: Event)
      modifies this
      ensures !event.isDispatch ==> list == old(list)
      ensures event.isDispatch ==>
                && 0 < |list| == Min(|old(list)| + 1, LIMIT) && list[|list| - 1] == event
                && forall i | 0 <= i < |list| - 1 :: list[i] == old(list)[|old(list)| + 1 - |list| + i]
      ensures list == Step(old(list), Push(event))
    {
      if !event.isDispatch {
        return;
      }
      list := list + [event];
      if |list| > LIMIT {
        list := list[|list| - LIMIT..];
      }
    }

    /** `replay_events`: everything after the client's last sequence is sent, and the buffer deleted. */
    method ReplayEvents(last: nat, queue: seq<Event>) returns (queue': seq<Event>, replayed: nat)
      requires |queue| <= CAPACITY
      modifies this
      ensures list == [] == Step(old(list), Clear)
      ensures queue' == Sent(queue, Unseen(old(list), last)) && queue <= queue' && |queue'| <= 1024
      ensures |queue'| == Min(1024, |queue| + |Unseen(old(list), last)|)
      ensures forall i | |queue| <= i < |queue'| :: queue'[i] == Unseen(old(list), last)[i - |queue|]
      ensures replayed == |Unseen(old(list), last)|
    {
      queue', replayed := queue, 0;
      var i := 0;
      while i < |list|
        invariant 0 <= i <= |list| && list == old(list)
        invariant queue' == Sent(queue, Unseen(list[..i], last)) && |queue'| <= CAPACITY
        invariant replayed == |Unseen(list[..i], last)|
      {
        var event := list[i];
        assert list[..i + 1] == list[..i] + [event];
        UnseenAppend(list[..i], [event], last);
        if event.sequence.Some? && event.sequence.value > last {
          SendOne(queue, Unseen(list[..i], last), event);
          if |queue'| < CAPACITY {
            queue' := queue' + [event];
          }
          replayed := replayed + 1;
        }
        i := i + 1;
      }
      assert list[..i] == list;
      list := [];
    }
  }

  lemma SendOne(queue: seq<Event>, events: seq<Event>, event: Event)
    requires |queue| <= CAPACITY
    ensures var before := Sent(queue, events);
            Sent(queue, events + [event]) == if |before| < CAPACITY then before + [event] else before
  {
  }

  lemma {:induction false} UnseenAppend(a: seq<Event>, b: seq<Event>, last: nat)
    ensures Unseen(a + b, last) == Unseen(a, last) + Unseen(b, last)
  {
    if a == [] {
      assert a + b == b;
    } else {
      assert (a + b)[1..] == a[1..] + b;
      UnseenAppend(a[1..], b, last);
      var head := if IsUnseen(a[0], last) then [a[0]] else [];
      assert Unseen(a, last) == head + Unseen(a[1..], last);
      assert Unseen(a + b, last) == head + (Unseen(a[1..], last) + Unseen(b, last));
    }
  }

  // ---- Runs

  function Run(list: seq<Event>, ops: seq<Op>): seq<Event>
    decreases |ops|
  {
    if ops == [] then list
    else Run(Step(list, ops[0]), ops[1..])
  }

  /** All dispatches buffered since the last deletion. */
  function Logged(log: seq<Event>, ops: seq<Op>): seq<Event>
    decreases |ops|
  {
    if ops == [] then log
    else if ops[0].Clear? then Logged([], ops[1..])
    else Logged(if ops[0].event.isDispatch then log + [ops[0].event] else log, ops[1..])
  }

  /** The buffer always holds exactly the last 1000 of them, in order. */
  lemma {:induction false} BufferIsTail(log: seq<Event>, ops: seq<Op>)
    ensures Run(Trim(log), ops) == Trim(Logged(log, ops))
    decreases |ops|
  {
    if ops != [] {
      if ops[0].Push? && ops[0].event.isDispatch {
        var log' := log + [ops[0].event];
        TrimTwice(log, ops[0].event);
        BufferIsTail(log', ops[1..]);
      } else if ops[0].Clear? {
        BufferIsTail([], ops[1..]);
      } else {
        BufferIsTail(log, ops[1..]);
      }
    }
  }

  lemma TrimTwice(log: seq<Event>, event: Event)
    ensures Trim(Trim(log) + [event]) == Trim(log + [event])
  {
  }

  /** The log in front of the last 1000 events. */
  function Trimmed(log: seq<Event>): seq<Event> {
    log[..|log| - |Trim(log)|]
  }

  /**
   * A replay brings every event the client has not seen exactly when all of
   * them are among the last 1000 logged.
   */
  lemma ReplayCompleteIff(ops: seq<Op>, last: nat)
    ensures var log := Logged([], ops);
            Unseen(Run([], ops), last) == Unseen(log, last)
            <==> forall i | 0 <= i < |log| - LIMIT :: !IsUnseen(log[i], last)
  {
    var log := Logged([], ops);
    BufferIsTail([], ops);
    assert log == Trimmed(log) + Trim(log);
    UnseenAppend(Trimmed(log), Trim(log), last);
    NoneUnseenIff(Trimmed(log), last);
    assert forall i | 0 <= i < |Trimmed(log)| :: Trimmed(log)[i] == log[i];
  }

  lemma {:induction false} NoneUnseenIff(list: seq<Event>, last: nat)
    ensures |Unseen(list, last)| == 0 <==> forall i | 0 <= i < |list| :: !IsUnseen(list[i], last)
  {
    if list != [] {
      NoneUnseenIff(list[1..], last);
      assert forall i | 0 < i < |list| :: list[i] == list[1..][i - 1];
    }
  }

  /** An event goes out exactly if it is logged with a number above the client's last: not at it, but from the next on. */
  lemma {:induction false} UnseenMembers(list: seq<Event>, last: nat, e: Event)
    ensures e in Unseen(list, last) <==> e in list && e.sequence.Some? && e.sequence.value > last
    ensures e.sequence == Some(last) ==> e !in Unseen(list, last)
    ensures e.sequence == Some(last + 1) && e in list ==> e in Unseen(list, last)
  {
    if list != [] {
      assert list == [list[0]] + list[1..];
      UnseenMembers(list[1..], last, e);
    }
  }

  ghost predicate Numbered(list: seq<Event>) {
    && (forall i | 0 <= i < |list| :: list[i].sequence.Some?)
    && (forall i, j | 0 <= i < j < |list| :: list[i].sequence.value < list[j].sequence.value)
  }

  /** Of a buffer numbered upwards exactly the end goes out that starts at the first number the client has not seen. */
  lemma {:induction false} UnseenIsEnd(list: seq<Event>, last: nat, k: nat)
    requires Numbered(list) && k <= |list|
    requires forall i | 0 <= i < |list| :: list[i].sequence.value <= last <==> i < k
    ensures Unseen(list, last) == list[k..]
  {
    if list != [] {
      var rest := list[1..];
      assert forall i | 0 <= i < |rest| :: rest[i] == list[i + 1];
      if k > 0 {
        UnseenIsEnd(rest, last, k - 1);
        assert rest[k - 1..] == list[k..];
      } else {
        UnseenIsEnd(rest, last, 0);
        assert list[0].sequence.value > last;
        assert list[0..] == [list[0]] + rest;
      }
    }
  }

  lemma {:induction false} UnseenLength(list: seq<Event>, last: nat)
    ensures |Unseen(list, last)| <= |list|
  {
    if list != [] {
      UnseenLength(list[1..], last);
    }
  }

  /** With room for a full buffer in the outbound channel, a replay sends all it counts. */
  lemma ReplayFits(ops: seq<Op>, last: nat, queue: seq<Event>)
    requires |queue| <= CAPACITY - LIMIT
    ensures Sent(queue, Unseen(Run([], ops), last)) == queue + Unseen(Run([], ops), last)
  {
    BufferIsTail([], ops);
    UnseenLength(Run([], ops), last);
  }
}
