/**
 * The read-state worker: every message is delivered at least once and at most
 * three times, in any order, and each attempt may stop part of the way.
 */
module ReadState {
  import opened Integers

  type User = nat
  type Channel = nat

  /** A MESSAGE_CREATE event; `audience` are the members of its server other than the author. */
  datatype Message = Message(id: int, channel: Channel, audience: set<User>, mentions: set<User>, everyone: bool)

  datatype Row = Row(last: int, mentions: int)

  type Table = map<(User, Channel), Row>

  const MAX_DELIVER := 3

  predicate Mentioned(m: Message, u: User) {
    m.everyone || u in m.mentions
  }

  /** `INSERT ... ON CONFLICT (user_id, channel_id) DO UPDATE` */
  function Upsert(t: Table, u: User, m: Message): Table {
    var increment := if Mentioned(m, u) then 1 else 0;
    var key := (u, m.channel);
    if key !in t then t[key := Row(m.id, increment)]
    else t[key := Row(Max(t[key].last, m.id), t[key].mentions + increment)]
  }

  function UpsertAll(t: Table, users: seq<User>, m: Message): Table
    decreases |users|
  {
    if users == [] then t else UpsertAll(Upsert(t, users[0], m), users[1..], m)
  }

  /**
   * One delivery: the members in the order the query returned them, and how
   * many of their statements succeeded before the database failed.
   */
  datatype Attempt = Attempt(message: Message, rows: seq<User>, reached: nat)

  ghost predicate Distinct(users: seq<User>) {
    forall i, j | 0 <= i < j < |users| :: users[i] != users[j]
  }

  /** The query returns each member of the audience once, and channel 0 is skipped. */
  ghost predicate WellFormed(a: Attempt) {
    && a.reached <= |a.rows| && Distinct(a.rows) && a.message.channel != 0
    && forall u :: u in a.rows <==> u in a.message.audience
  }

  predicate Complete(a: Attempt) {
    a.reached == |a.rows|
  }

  class Worker {
    var readStates: Table

    constructor ()
      ensures readStates == map[]
    {
      readStates := map[];
    }

    /** `process_message` on a table whose statement number `reached` fails, if there is one. */
    method ProcessMessage(message: Message, members: seq<User>, reached: nat) returns (acked: bool)
      modifies this
      ensures acked <==> message.channel == 0 || reached >= |members|
      ensures readStates == if message.channel == 0 then old(readStates)
                            else UpsertAll(old(readStates), if reached < |members| then members[..reached] else members, message)
    {
      if message.channel == 0 {
        return true;
      }
      if members == [] {
        return true;
      }
      var i := 0;
      while i < |members|
        invariant 0 <= i <= |members| && i <= reached
        invariant readStates == UpsertAll(old(readStates), members[..i], message)
      {
        if i == reached {
          return false;
        }
        var u := members[i];
        var increment := if Mentioned(message, u) then 1 else 0;
        var key := (u, message.channel);
        UpsertLast(old(readStates), members[..i], u, message);
        assert members[..i + 1] == members[..i] + [u];
        if key in readStates {
          var row := readStates[key];
          readStates := readStates[key := Row(Max(row.last, message.id), row.mentions + increment)];
        } else {
          readStates := readStates[key := Row(message.id, increment)];
        }
        i := i + 1;
      }
      assert members[..i] == members;
      return true;
    }
  }

  lemma {:induction false} UpsertLast(t: Table, users: seq<User>, u: User, m: Message)
    ensures UpsertAll(t, users + [u], m) == Upsert(UpsertAll(t, users, m), u, m)
    decreases |users|
  {
    if users == [] {
      assert [u][1..] == [];
    } else {
      assert (users + [u])[1..] == users[1..] + [u];
      UpsertLast(Upsert(t, users[0], m), users[1..], u, m);
    }
  }

  // ---- Runs

  function Deliver(t: Table, a: Attempt): Table {
    if a.reached <= |a.rows| then UpsertAll(t, a.rows[..a.reached], a.message) else t
  }

  function Run(t: Table, attempts: seq<Attempt>): Table
    decreases |attempts|
  {
    if attempts == [] then t else Run(Deliver(t, attempts[0]), attempts[1..])
  }

  /** The attempt wrote the row of this user in this channel. */
  predicate Touches(a: Attempt, u: User, c: Channel) {
    a.message.channel == c && a.reached <= |a.rows| && u in a.rows[..a.reached]
  }

  /** The attempts that touched the row and counted a mention. */
  function Mentions(attempts: seq<Attempt>, u: User, c: Channel): nat {
    if attempts == [] then 0
    else (if Touches(attempts[0], u, c) && Mentioned(attempts[0].message, u) then 1 else 0)
         + Mentions(attempts[1..], u, c)
  }

  ghost function TouchedIds(attempts: seq<Attempt>, u: User, c: Channel): set<int> {
    set a | a in attempts && Touches(a, u, c) :: a.message.id
  }

  lemma {:induction false} UpsertAllRow(t: Table, users: seq<User>, m: Message, u: User, c: Channel)
    requires Distinct(users)
    ensures var t' := UpsertAll(t, users, m);
            if c == m.channel && u in users then (u, c) in t' && t'[(u, c)] == Upsert(t, u, m)[(u, c)]
            else ((u, c) in t' <==> (u, c) in t) && ((u, c) in t ==> t'[(u, c)] == t[(u, c)])
    decreases |users|
  {
    if users != [] {
      var rest := users[1..];
      assert forall i | 0 <= i < |rest| :: rest[i] == users[i + 1];
      assert users[0] !in rest && users == [users[0]] + rest;
      UpsertAllRow(Upsert(t, users[0], m), rest, m, u, c);
    }
  }

  lemma DeliverRow(t: Table, a: Attempt, u: User, c: Channel)
    requires WellFormed(a)
    ensures var t' := Deliver(t, a);
            if Touches(a, u, c) then (u, c) in t' && t'[(u, c)] == Upsert(t, u, a.message)[(u, c)]
            else ((u, c) in t' <==> (u, c) in t) && ((u, c) in t ==> t'[(u, c)] == t[(u, c)])
  {
    assert Distinct(a.rows[..a.reached]);
    UpsertAllRow(t, a.rows[..a.reached], a.message, u, c);
  }

  /** A row that was there before the run: the greatest id seen, and one more for each mention counted. */
  lemma {:induction false} RunRow(t: Table, attempts: seq<Attempt>, u: User, c: Channel)
    requires (u, c) in t && forall a | a in attempts :: WellFormed(a)
    ensures var t' := Run(t, attempts);
            && (u, c) in t'
            && t'[(u, c)].mentions == t[(u, c)].mentions + Mentions(attempts, u, c)
            && t'[(u, c)].last >= t[(u, c)].last
            && (forall id | id in TouchedIds(attempts, u, c) :: id <= t'[(u, c)].last)
            && (t'[(u, c)].last == t[(u, c)].last || t'[(u, c)].last in TouchedIds(attempts, u, c))
    decreases |attempts|
  {
    if attempts != [] {
      DeliverRow(t, attempts[0], u, c);
      RunRow(Deliver(t, attempts[0]), attempts[1..], u, c);
      TouchedSplit(attempts, u, c);
    }
  }

  lemma TouchedSplit(attempts: seq<Attempt>, u: User, c: Channel)
    requires attempts != []
    ensures TouchedIds(attempts, u, c)
         == TouchedIds(attempts[1..], u, c) + if Touches(attempts[0], u, c) then {attempts[0].message.id} else {}
  {
    assert attempts == [attempts[0]] + attempts[1..];
  }

  /** From the empty table: a row exists once it is touched, with the greatest id and the number of mentions counted. */
  lemma {:induction false} FreshRow(t: Table, attempts: seq<Attempt>, u: User, c: Channel)
    requires (u, c) !in t && forall a | a in attempts :: WellFormed(a)
    ensures var t' := Run(t, attempts);
            && ((u, c) in t' <==> exists a | a in attempts :: Touches(a, u, c))
            && ((u, c) in t' ==>
                  && t'[(u, c)].mentions == Mentions(attempts, u, c)
                  && t'[(u, c)].last in TouchedIds(attempts, u, c)
                  && forall id | id in TouchedIds(attempts, u, c) :: id <= t'[(u, c)].last)
    decreases |attempts|
  {
    if attempts != [] {
      var t1 := Deliver(t, attempts[0]);
      DeliverRow(t, attempts[0], u, c);
      TouchedSplit(attempts, u, c);
      assert attempts == [attempts[0]] + attempts[1..];
      if Touches(attempts[0], u, c) {
        RunRow(t1, attempts[1..], u, c);
      } else {
        FreshRow(t1, attempts[1..], u, c);
      }
    }
  }

  /**
   * A delivery that goes through counts a mention for each user of the audience
   * if everyone is mentioned, and otherwise for exactly those of them it names;
   * it leaves the rows of other users and other channels alone.
   */
  lemma DeliveryCounts(t: Table, a: Attempt, u: User, c: Channel)
    requires WellFormed(a) && Complete(a)
    ensures var t', m := Deliver(t, a), a.message;
            if c == m.channel && u in m.audience then
              && (u, c) in t'
              && t'[(u, c)].mentions == (if (u, c) in t then t[(u, c)].mentions else 0)
                                        + (if m.everyone || u in m.mentions then 1 else 0)
              && t'[(u, c)].last == (if (u, c) in t && t[(u, c)].last > m.id then t[(u, c)].last else m.id)
            else ((u, c) in t' <==> (u, c) in t) && ((u, c) in t ==> t'[(u, c)] == t[(u, c)])
  {
    assert a.rows[..a.reached] == a.rows;
    DeliverRow(t, a, u, c);
  }

  // ---- When everything is acknowledged

  function CountOf(attempts: seq<Attempt>, m: Message): nat {
    if attempts == [] then 0 else (if attempts[0].message == m then 1 else 0) + CountOf(attempts[1..], m)
  }

  /** Every message of the stream was delivered up to three times and once to the end; nothing else was. */
  ghost predicate Settled(stream: set<Message>, attempts: seq<Attempt>) {
    && (forall a | a in attempts :: WellFormed(a) && a.message in stream)
    && (forall m | m in stream :: CountOf(attempts, m) <= MAX_DELIVER)
    && (forall m | m in stream :: exists a | a in attempts :: a.message == m && Complete(a))
  }

  ghost function Addressed(stream: set<Message>, u: User, c: Channel): set<Message> {
    set m | m in stream && m.channel == c && u in m.audience
  }

  ghost function AddressedIds(stream: set<Message>, u: User, c: Channel): set<int> {
    set m | m in Addressed(stream, u, c) :: m.id
  }

  ghost function Mentioning(stream: set<Message>, u: User, c: Channel): set<Message> {
    set m | m in Addressed(stream, u, c) && Mentioned(m, u)
  }

  /** The attempts among those for the given messages that reached the user. */
  ghost function Reaching(attempts: seq<Attempt>, messages: set<Message>, u: User, c: Channel): nat {
    if attempts == [] then 0
    else (if attempts[0].message in messages && Touches(attempts[0], u, c) then 1 else 0)
         + Reaching(attempts[1..], messages, u, c)
  }

  lemma {:induction false} ReachingSplit(attempts: seq<Attempt>, messages: set<Message>, m: Message, u: User, c: Channel)
    requires m in messages
    ensures Reaching(attempts, messages, u, c)
         == Reaching(attempts, messages - {m}, u, c) + Reaching(attempts, {m}, u, c)
  {
    if attempts != [] {
      ReachingSplit(attempts[1..], messages, m, u, c);
    }
  }

  lemma {:induction false} ReachingOne(attempts: seq<Attempt>, m: Message, u: User, c: Channel)
    ensures Reaching(attempts, {m}, u, c) <= CountOf(attempts, m)
    ensures (exists a | a in attempts :: a.message == m && Touches(a, u, c)) ==> Reaching(attempts, {m}, u, c) >= 1
  {
    if attempts != [] {
      assert attempts == [attempts[0]] + attempts[1..];
      ReachingOne(attempts[1..], m, u, c);
    }
  }

  lemma {:induction false} ReachingNone(attempts: seq<Attempt>, u: User, c: Channel)
    ensures Reaching(attempts, {}, u, c) == 0
  {
    if attempts != [] {
      ReachingNone(attempts[1..], u, c);
    }
  }

  lemma {:induction false} ReachingBounds(stream: set<Message>, attempts: seq<Attempt>, messages: set<Message>, u: User, c: Channel)
    requires Settled(stream, attempts) && messages <= Addressed(stream, u, c)
    ensures |messages| <= Reaching(attempts, messages, u, c) <= MAX_DELIVER * |messages|
    decreases |messages|
  {
    if messages == {} {
      ReachingNone(attempts, u, c);
    } else {
      var m: Message :| m in messages;
      ReachingSplit(attempts, messages, m, u, c);
      ReachingBounds(stream, attempts, messages - {m}, u, c);
      CompleteTouches(stream, attempts, m, u, c);
      ReachingOne(attempts, m, u, c);
    }
  }

  lemma CompleteTouches(stream: set<Message>, attempts: seq<Attempt>, m: Message, u: User, c: Channel)
    requires Settled(stream, attempts) && m in Addressed(stream, u, c)
    ensures exists a | a in attempts :: a.message == m && Touches(a, u, c)
  {
    var a :| a in attempts && a.message == m && Complete(a);
    assert a.rows[..a.reached] == a.rows;
    assert Touches(a, u, c);
  }

  lemma {:induction false} MentionsAreReaching(stream: set<Message>, attempts: seq<Attempt>, u: User, c: Channel)
    requires forall a | a in attempts :: WellFormed(a) && a.message in stream
    ensures Mentions(attempts, u, c)
         == Reaching(attempts, Mentioning(stream, u, c), u, c)
  {
    if attempts != [] {
      MentionsAreReaching(stream, attempts[1..], u, c);
      var a := attempts[0];
      assert WellFormed(a) && a.message in stream;
      assert Touches(a, u, c) ==> u in a.rows;
    }
  }

  /**
   * Once every message is acknowledged, whatever the order, the partial failures
   * and the redeliveries: a user has a read state in a channel exactly if some
   * message was addressed to it there, and its last_message_id is the greatest
   * id of those.
   */
  lemma SettledLast(stream: set<Message>, attempts: seq<Attempt>, u: User, c: Channel)
    requires Settled(stream, attempts)
    ensures var t, ids := Run(map[], attempts), AddressedIds(stream, u, c);
            && ((u, c) in t <==> exists id :: id in ids)
            && ((u, c) in t ==> t[(u, c)].last in ids && forall id | id in ids :: id <= t[(u, c)].last)
  {
    FreshRow(map[], attempts, u, c);
    TouchedAreAddressed(stream, attempts, u, c);
    if id :| id in TouchedIds(attempts, u, c) {
      var a :| a in attempts && Touches(a, u, c) && a.message.id == id;
    } else {
      forall a | a in attempts ensures !Touches(a, u, c) {
        assert Touches(a, u, c) ==> a.message.id in TouchedIds(attempts, u, c);
      }
    }
  }

  /**
   * And its mention_count lies between the number of those messages that
   * mention it and three times that number.
   */
  lemma SettledMentions(stream: set<Message>, attempts: seq<Attempt>, u: User, c: Channel)
    requires Settled(stream, attempts) && (u, c) in Run(map[], attempts)
    ensures var n := |Mentioning(stream, u, c)|;
            n <= Run(map[], attempts)[(u, c)].mentions <= MAX_DELIVER * n
  {
    FreshRow(map[], attempts, u, c);
    MentionsAreReaching(stream, attempts, u, c);
    ReachingBounds(stream, attempts, Mentioning(stream, u, c), u, c);
  }

  lemma TouchedAreAddressed(stream: set<Message>, attempts: seq<Attempt>, u: User, c: Channel)
    requires Settled(stream, attempts)
    ensures TouchedIds(attempts, u, c) == AddressedIds(stream, u, c)
  {
    forall a | a in attempts && Touches(a, u, c)
      ensures a.message.id in AddressedIds(stream, u, c)
    {
      assert WellFormed(a);
      assert a.message in Addressed(stream, u, c);
    }
    forall m | m in Addressed(stream, u, c)
      ensures m.id in TouchedIds(attempts, u, c)
    {
      CompleteTouches(stream, attempts, m, u, c);
    }
  }

  /** Two attempts that fail after the user's row, and one that succeeds. */
  function ThreeAttempts(m: Message, rows: seq<User>, reached: nat): seq<Attempt> {
    [Attempt(m, rows, reached), Attempt(m, rows, reached), Attempt(m, rows, |rows|)]
  }

  /** The factor three is reached that way. */
  lemma ThriceCounted(m: Message, rows: seq<User>, u: User, reached: nat)
    requires WellFormed(Attempt(m, rows, reached)) && u in rows[..reached] && Mentioned(m, u)
    ensures var attempts := ThreeAttempts(m, rows, reached);
            && Settled({m}, attempts)
            && (u, m.channel) in Run(map[], attempts) && Run(map[], attempts)[(u, m.channel)] == Row(m.id, 3)
  {
    ThreeSettled(m, rows, reached);
    ThreeRows(m, rows, u, reached);
  }

  lemma ThreeSettled(m: Message, rows: seq<User>, reached: nat)
    requires WellFormed(Attempt(m, rows, reached))
    ensures Settled({m}, ThreeAttempts(m, rows, reached))
  {
    var attempts := ThreeAttempts(m, rows, reached);
    assert Complete(attempts[2]) && attempts[2] in attempts;
    CountIsBounded(attempts, m);
  }

  lemma {:induction false} CountIsBounded(attempts: seq<Attempt>, m: Message)
    ensures CountOf(attempts, m) <= |attempts|
  {
    if attempts != [] {
      CountIsBounded(attempts[1..], m);
    }
  }

  lemma ThreeRows(m: Message, rows: seq<User>, u: User, reached: nat)
    requires WellFormed(Attempt(m, rows, reached)) && u in rows[..reached] && Mentioned(m, u)
    ensures var t := Run(map[], ThreeAttempts(m, rows, reached));
            (u, m.channel) in t && t[(u, m.channel)] == Row(m.id, 3)
  {
    var a, b, c := Attempt(m, rows, reached), Attempt(m, rows, |rows|), m.channel;
    var t1 := Deliver(map[], a);
    var t2 := Deliver(t1, a);
    assert rows[..|rows|] == rows && u in rows;
    DeliverRow(map[], a, u, c);
    DeliverRow(t1, a, u, c);
    DeliverRow(t2, b, u, c);
    RunThree(map[], a, a, b);
  }

  lemma RunThree(t: Table, a: Attempt, b: Attempt, c: Attempt)
    ensures Run(t, [a, b, c]) == Deliver(Deliver(Deliver(t, a), b), c)
  {
    assert [a, b, c][1..] == [b, c] && [b, c][1..] == [c] && [c][1..] == [];
    assert Run(t, [a, b, c]) == Run(Deliver(t, a), [b, c]);
    assert Run(Deliver(t, a), [b, c]) == Run(Deliver(Deliver(t, a), b), [c]);
    assert Run(Deliver(Deliver(t, a), b), [c]) == Run(Deliver(Deliver(Deliver(t, a), b), c), []);
  }
}
