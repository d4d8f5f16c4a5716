/** The table of relationships between users and the three handlers that write it. */
module Relationships {
  import opened Options

  type User = nat

  /** The `type` column: 1 friend, 2 blocked, 3 incoming request, 4 outgoing request. */
  datatype Kind = Friend | Blocked | Incoming | Outgoing

  /** Rows by their primary key (user_id, target_id). */
  type Table = map<(User, User), Kind>

  datatype Reply = NoContent | BadRequest | NotFound | AlreadyExists | DuplicateKey

  /** Whom a create request names: by id, which may or may not exist, by user name, or not at all. */
  datatype Request = ById(id: User, exists_: bool) | ByName(found: Option<User>) | Unnamed

  predicate RowIs(t: Table, a: User, b: User, kind: Kind) {
    (a, b) in t && t[(a, b)] == kind
  }

  // ---- Handlers as steps

  function Clear(t: Table, a: User, b: User): Table {
    t - {(a, b), (b, a)}
  }

  /** `UPDATE ... SET type = 1` on the rows of the pair that exist. */
  function Befriend(t: Table, a: User, b: User): Table {
    map k | k in t :: if k == (a, b) || k == (b, a) then Friend else t[k]
  }

  function Create(t: Table, me: User, target: User, targetExists: bool): (Table, Reply) {
    if target == me then (t, BadRequest)
    else if !targetExists then (t, NotFound)
    else if RowIs(t, target, me, Blocked) || RowIs(t, me, target, Blocked) then (t, BadRequest)
    else if RowIs(t, me, target, Incoming) then (Befriend(t, me, target), NoContent)
    else if (me, target) in t then (t, AlreadyExists)
    else if (target, me) in t then (t, DuplicateKey)
    else (t[(me, target) := Outgoing][(target, me) := Incoming], NoContent)
  }

  function Remove(t: Table, me: User, target: User): (Table, Reply) {
    if (me, target) !in t && (target, me) !in t then (t, NotFound)
    else (Clear(t, me, target), NoContent)
  }

  function Block(t: Table, me: User, target: User, relType: int, targetExists: bool): (Table, Reply) {
    if relType != 2 || target == me then (t, BadRequest)
    else if !targetExists then (t, NotFound)
    else (Clear(t, me, target)[(me, target) := Blocked], NoContent)
  }

  // ---- What a pair of users can be to each other

  datatype Pair = Strangers | Requested(sender: User) | Friends | BlockedBy(blocker: User) | Inconsistent

  function PairOf(t: Table, a: User, b: User): Pair {
    if (a, b) !in t && (b, a) !in t then Strangers
    else if (a, b) !in t then if t[(b, a)] == Blocked then BlockedBy(b) else Inconsistent
    else if (b, a) !in t then if t[(a, b)] == Blocked then BlockedBy(a) else Inconsistent
    else
      match (t[(a, b)], t[(b, a)])
      case (Friend, Friend) => Friends
      case (Outgoing, Incoming) => Requested(a)
      case (Incoming, Outgoing) => Requested(b)
      case _ => Inconsistent
  }

  ghost predicate Consistent(t: Table) {
    && (forall a :: (a, a) !in t)
    && (forall a, b | a != b :: PairOf(t, a, b) != Inconsistent)
  }

  datatype Step =
    | StepCreate(me: User, target: User, targetExists: bool)
    | StepRemove(me: User, target: User)
    | StepBlock(me: User, target: User, relType: int, targetExists: bool)

  function Apply(t: Table, step: Step): (Table, Reply) {
    match step
    case StepCreate(me, target, e) => Create(t, me, target, e)
    case StepRemove(me, target) => Remove(t, me, target)
    case StepBlock(me, target, k, e) => Block(t, me, target, k, e)
  }

  ghost predicate OtherRowsSame(t: Table, t': Table, a: User, b: User) {
    forall k | k != (a, b) && k != (b, a) :: (k in t' <==> k in t) && (k in t ==> t'[k] == t[k])
  }

  /** The table with its handlers, statement by statement. */
  class RelationshipTable {
    var rows: Table

    constructor ()
      ensures rows == map[]
    {
      rows := map[];
    }

    /** The target is resolved first; a user found by name exists, an id is looked up after the test for oneself. */
    method CreateRelationship(me: User, request: Request) returns (reply: Reply)
      modifies this
      ensures request.ById? && request.id == me ==> reply == BadRequest && rows == old(rows)
      ensures request == Unnamed ==> reply == BadRequest && rows == old(rows)
      ensures request == ByName(None) ==> reply == NotFound && rows == old(rows)
      ensures request == ByName(Some(me)) ==> reply == BadRequest && rows == old(rows)
      ensures request.ById? && request.id != me && !request.exists_ ==> reply == NotFound && rows == old(rows)
      ensures request.ById? ==> (rows, reply) == Create(old(rows), me, request.id, request.exists_)
      ensures request.ByName? && request.found.Some? ==> (rows, reply) == Create(old(rows), me, request.found.value, true)
    {
      if request.Unnamed? {
        return BadRequest;
      }
      if request.ByName? && request.found.None? {
        return NotFound;
      }
      var target := if request.ById? then request.id else request.found.value;
      if target == me {
        return BadRequest;
      }
      if request.ById? && !request.exists_ {
        return NotFound;
      }
      var blocked := RowIs(rows, target, me, Blocked);
      if blocked {
        return BadRequest;
      }
      var weBlocked := RowIs(rows, me, target, Blocked);
      if weBlocked {
        return BadRequest;
      }
      var incoming := RowIs(rows, me, target, Incoming);
      if incoming {
        rows := rows[(me, target) := Friend];
        if (target, me) in rows {
          rows := rows[(target, me) := Friend];
        }
        assert rows == Befriend(old(rows), me, target);
        return NoContent;
      }
      if (me, target) in rows {
        return AlreadyExists;
      }
      if (target, me) in rows {
        return DuplicateKey;
      }
      rows := rows[(me, target) := Outgoing];
      rows := rows[(target, me) := Incoming];
      return NoContent;
    }

    method RemoveRelationship(me: User, target: User) returns (reply: Reply)
      modifies this
      ensures reply == if PairOf(old(rows), me, target) == Strangers then NotFound else NoContent
      ensures PairOf(rows, me, target) == Strangers && OtherRowsSame(old(rows), rows, me, target)
      ensures Consistent(old(rows)) ==> Consistent(rows)
      ensures (rows, reply) == Apply(old(rows), StepRemove(me, target))
    {
      ApplyKeepsConsistent(rows, StepRemove(me, target));
      if (me, target) !in rows && (target, me) !in rows {
        return NotFound;
      }
      rows := rows - {(me, target), (target, me)};
      return NoContent;
    }

    method BlockUser(me: User, target: User, relType: int, targetExists: bool) returns (reply: Reply)
      modifies this
      ensures reply == if relType != 2 || target == me then BadRequest else if targetExists then NoContent else NotFound
      ensures reply != NoContent ==> rows == old(rows)
      ensures reply == NoContent ==> PairOf(rows, me, target) == BlockedBy(me)
      ensures OtherRowsSame(old(rows), rows, me, target)
      ensures Consistent(old(rows)) ==> Consistent(rows)
      ensures (rows, reply) == Apply(old(rows), StepBlock(me, target, relType, targetExists))
    {
      ApplyKeepsConsistent(rows, StepBlock(me, target, relType, targetExists));
      if relType != 2 {
        return BadRequest;
      }
      if target == me {
        return BadRequest;
      }
      if !targetExists {
        return NotFound;
      }
      rows := rows - {(me, target), (target, me)};
      rows := rows[(me, target) := Blocked];
      return NoContent;
    }
  }

  function Run(t: Table, steps: seq<Step>): Table
    decreases |steps|
  {
    if steps == [] then t else Run(Apply(t, steps[0]).0, steps[1..])
  }

  predicate Concerns(step: Step, a: User, b: User) {
    (step.me == a && step.target == b) || (step.me == b && step.target == a)
  }

  /** Who of the two has successfully called create since the pair was last cleared. */
  function CallersAfter(t: Table, step: Step, callers: set<User>, a: User, b: User): set<User> {
    if !Concerns(step, a, b) || Apply(t, step).1 != NoContent then callers
    else if step.StepCreate? then callers + {step.me}
    else {}
  }

  function Callers(t: Table, steps: seq<Step>, callers: set<User>, a: User, b: User): set<User>
    decreases |steps|
  {
    if steps == [] then callers
    else Callers(Apply(t, steps[0]).0, steps[1..], CallersAfter(t, steps[0], callers, a, b), a, b)
  }

  /** The callers that a pair's state stands for. */
  function CallersOf(p: Pair, a: User, b: User): set<User> {
    match p
    case Friends => {a, b}
    case Requested(sender) => {sender}
    case _ => {}
  }

  lemma ApplyKeepsConsistent(t: Table, step: Step)
    ensures Consistent(t) ==> Consistent(Apply(t, step).0) && Apply(t, step).1 != DuplicateKey
  {
    if Consistent(t) {
      ConsistentStep(t, step);
    }
  }

  lemma ConsistentStep(t: Table, step: Step)
    requires Consistent(t)
    ensures Consistent(Apply(t, step).0) && Apply(t, step).1 != DuplicateKey
  {
    var t', me, target := Apply(t, step).0, step.me, step.target;
    if me != target {
      assert PairOf(t, me, target) != Inconsistent;
    }
    forall a, b | a != b ensures PairOf(t', a, b) != Inconsistent {
      assert PairOf(t, a, b) != Inconsistent;
      OtherPairs(t, step, a, b);
    }
    forall a ensures (a, a) !in t' {
      assert (a, a) !in t;
    }
  }

  /** A step leaves every other pair as it was. */
  lemma OtherPairs(t: Table, step: Step, a: User, b: User)
    ensures !Concerns(step, a, b) ==> PairOf(Apply(t, step).0, a, b) == PairOf(t, a, b)
  {
  }

  /** What a step means to two users: their pair alone, as a state machine, and the reply. */
  function PairNext(p: Pair, step: Step): (Pair, Reply) {
    match step
    case StepCreate(me, _, targetExists) =>
      if !targetExists then (p, NotFound)
      else (
        match p
        case Strangers => (Requested(me), NoContent)
        case Requested(sender) => if sender == me then (p, AlreadyExists) else (Friends, NoContent)
        case BlockedBy(_) => (p, BadRequest)
        case _ => (p, AlreadyExists)
      )
    case StepRemove(_, _) => if p == Strangers then (p, NotFound) else (Strangers, NoContent)
    case StepBlock(me, _, relType, targetExists) =>
      if relType != 2 then (p, BadRequest)
      else if !targetExists then (p, NotFound)
      else (BlockedBy(me), NoContent)
  }

  function PairRun(p: Pair, steps: seq<Step>, a: User, b: User): Pair
    decreases |steps|
  {
    if steps == [] then p
    else PairRun(if Concerns(steps[0], a, b) then PairNext(p, steps[0]).0 else p, steps[1..], a, b)
  }

  lemma StepRefinesPair(t: Table, step: Step, a: User, b: User)
    requires Consistent(t) && a != b && Concerns(step, a, b)
    ensures (PairOf(Apply(t, step).0, a, b), Apply(t, step).1) == PairNext(PairOf(t, a, b), step)
  {
    assert PairOf(t, a, b) != Inconsistent;
  }

  /** The two-row table is, for each pair of users, that state machine. */
  lemma {:induction false} RunRefinesPair(t: Table, steps: seq<Step>, a: User, b: User)
    requires Consistent(t) && a != b
    ensures PairOf(Run(t, steps), a, b) == PairRun(PairOf(t, a, b), steps, a, b)
    decreases |steps|
  {
    if steps != [] {
      ApplyKeepsConsistent(t, steps[0]);
      OtherPairs(t, steps[0], a, b);
      if Concerns(steps[0], a, b) {
        StepRefinesPair(t, steps[0], a, b);
      }
      RunRefinesPair(Apply(t, steps[0]).0, steps[1..], a, b);
    }
  }

  /** A block stands, and refuses every request, until one of the two removes it or the other blocks back. */
  lemma {:induction false} BlockStands(t: Table, steps: seq<Step>, a: User, b: User)
    requires Consistent(t) && a != b && PairOf(t, a, b) == BlockedBy(a)
    requires forall i | 0 <= i < |steps| && Concerns(steps[i], a, b) ::
               steps[i].StepCreate? || (steps[i].StepBlock? && steps[i].me == a)
    ensures PairOf(Run(t, steps), a, b) == BlockedBy(a)
    ensures Create(Run(t, steps), b, a, true) == (Run(t, steps), BadRequest)
    decreases |steps|
  {
    if steps != [] {
      ApplyKeepsConsistent(t, steps[0]);
      OtherPairs(t, steps[0], a, b);
      if Concerns(steps[0], a, b) {
        StepRefinesPair(t, steps[0], a, b);
      }
      BlockStands(Apply(t, steps[0]).0, steps[1..], a, b);
    }
  }

  lemma PairMoves(t: Table, step: Step, a: User, b: User)
    requires Consistent(t) && a != b
    ensures CallersAfter(t, step, CallersOf(PairOf(t, a, b), a, b), a, b)
         == CallersOf(PairOf(Apply(t, step).0, a, b), a, b)
  {
    assert PairOf(t, a, b) != Inconsistent;
    OtherPairs(t, step, a, b);
  }

  lemma {:induction false} RunIsHistory(t: Table, steps: seq<Step>, a: User, b: User)
    requires Consistent(t) && a != b
    ensures Consistent(Run(t, steps))
    ensures Callers(t, steps, CallersOf(PairOf(t, a, b), a, b), a, b) == CallersOf(PairOf(Run(t, steps), a, b), a, b)
    decreases |steps|
  {
    if steps != [] {
      ApplyKeepsConsistent(t, steps[0]);
      PairMoves(t, steps[0], a, b);
      RunIsHistory(Apply(t, steps[0]).0, steps[1..], a, b);
    }
  }

  /**
   * In every run the rows of two users form one of six states: strangers, a
   * request either way, friends, a block either way. They are friends exactly
   * if both have called create since the pair was last cleared, and a request
   * is open exactly if one of them has.
   */
  lemma PairsAreConsistent(steps: seq<Step>, a: User, b: User)
    requires a != b
    ensures var t, callers := Run(map[], steps), Callers(map[], steps, {}, a, b);
            && PairOf(t, a, b) in {Strangers, Requested(a), Requested(b), Friends, BlockedBy(a), BlockedBy(b)}
            && (a, a) !in t
            && (PairOf(t, a, b) == Friends <==> callers == {a, b})
            && (PairOf(t, a, b) == Requested(a) <==> callers == {a})
            && (PairOf(t, a, b) == Requested(b) <==> callers == {b})
  {
    RunIsHistory(map[], steps, a, b);
    var p := PairOf(Run(map[], steps), a, b);
    assert a in {a, b} && b in {a, b} && b !in {a} && a !in {b};
    assert a !in CallersOf(p, a, b) || CallersOf(p, a, b) != {};
    assert p != Inconsistent;
  }

  /** The two-row insert of a request never meets an existing row. */
  lemma {:induction false} InsertNeverCollides(t: Table, steps: seq<Step>, i: nat)
    requires Consistent(t) && i < |steps|
    ensures Apply(Run(t, steps[..i]), steps[i]).1 != DuplicateKey
    decreases |steps|
  {
    if i == 0 {
      ApplyKeepsConsistent(t, steps[0]);
    } else {
      ApplyKeepsConsistent(t, steps[0]);
      assert steps[..i][1..] == steps[1..][..i - 1];
      InsertNeverCollides(Apply(t, steps[0]).0, steps[1..], i - 1);
    }
  }

  /** A request and its answer make friends of strangers, in either order of the calls. */
  lemma RequestAndAnswer(t: Table, a: User, b: User)
    requires a != b && PairOf(t, a, b) == Strangers
    ensures var t1 := Create(t, a, b, true).0;
            && PairOf(t1, a, b) == Requested(a)
            && PairOf(Create(t1, b, a, true).0, a, b) == Friends
            && Create(t1, a, b, true) == (t1, AlreadyExists)
            && Remove(Create(t1, b, a, true).0, b, a) == (t, NoContent)
  {
    var t1 := Create(t, a, b, true).0;
    var t2 := Create(t1, b, a, true).0;
    assert Clear(t2, b, a) == t;
  }
}
