/**
 * 64-bit Snowflake ids: a millisecond timestamp above a 10-bit machine id above
 * a 12-bit sequence number.
 */
module Snowflake {
  import opened Bits

  /** Milliseconds from the Unix epoch to 2024-01-01T00:00:00Z. */
  const LUMIERE_EPOCH := 1_704_067_200_000

  const MACHINE_ID_BITS := 10
  const SEQUENCE_BITS := 12
  const MAX_MACHINE_ID := 1023
  const MAX_SEQUENCE := 4095
  const MACHINE_ID_SHIFT := 12
  const TIMESTAMP_SHIFT := 22

  /** Timestamps below this bound fit above the machine id in one word. */
  const TIMESTAMP_BOUND := 0x400_0000_0000

  type Id = x: nat | x < WORD

  /** A 64-bit signed database value. */
  type Signed = v: int | -(WORD / 2) <= v < WORD / 2

  function TimestampMs(id: Id): nat {
    ShiftRight(id, TIMESTAMP_SHIFT)
  }

  function MachineId(id: Id): nat {
    And(ShiftRight(id, MACHINE_ID_SHIFT), MAX_MACHINE_ID)
  }

  function Sequence(id: Id): nat {
    And(id, MAX_SEQUENCE)
  }

  /** The word that `next_id` assembles from its three fields. */
  function Pack(timestamp: nat, machine: nat, sequence: nat): nat {
    Or(Or(ShiftLeft(timestamp, TIMESTAMP_SHIFT), ShiftLeft(machine, MACHINE_ID_SHIFT)), sequence)
  }

  /** The `as i64` reinterpretation used at the database boundary. */
  function ToSigned(id: Id): Signed {
    if id < WORD / 2 then id else id - WORD
  }

  /** The `as u64` reinterpretation of a database value. */
  function FromSigned(v: Signed): Id {
    if v < 0 then v + WORD else v
  }

  lemma Powers()
    ensures Pow2(10) == 1024 && Pow2(12) == 4096 && Pow2(22) == 4194304
  {
  }

  /** A packed word is the weighted sum of its fields, the timestamp cut to 42 bits. */
  lemma PackIsSum(timestamp: nat, machine: nat, sequence: nat)
    requires machine <= MAX_MACHINE_ID && sequence <= MAX_SEQUENCE
    ensures Pack(timestamp, machine, sequence)
         == timestamp % TIMESTAMP_BOUND * 4194304 + machine * 4096 + sequence < WORD
  {
    Powers();
    var t := timestamp % TIMESTAMP_BOUND;
    assert ShiftLeft(timestamp, 22) == t * 4194304 by {
      assert timestamp * 4194304 == timestamp / TIMESTAMP_BOUND * WORD + t * 4194304;
      EuclidUnique(timestamp * 4194304, WORD, timestamp / TIMESTAMP_BOUND, t * 4194304);
    }
    assert ShiftLeft(machine, 12) == machine * 4096;
    OrDisjoint(t, machine * 4096, 22);
    OrDisjoint(t * 1024 + machine, sequence, 12);
  }

  lemma PackIsSmallSum(timestamp: nat, machine: nat, sequence: nat)
    requires timestamp < TIMESTAMP_BOUND && machine <= MAX_MACHINE_ID && sequence <= MAX_SEQUENCE
    ensures Pack(timestamp, machine, sequence) == timestamp * 4194304 + machine * 4096 + sequence < WORD
  {
    SmallMod(timestamp);
    PackIsSum(timestamp, machine, sequence);
  }

  lemma SmallMod(timestamp: nat)
    requires timestamp < TIMESTAMP_BOUND
    ensures timestamp % TIMESTAMP_BOUND == timestamp
  {
  }

  lemma FieldsAreDigits(id: Id)
    ensures TimestampMs(id) == id / 4194304
    ensures MachineId(id) == id / 4096 % 1024
    ensures Sequence(id) == id % 4096
  {
    Powers();
    AndMask(id / 4096, 10);
    AndMask(id, 12);
  }

  /** The three digits of a mixed-radix sum are unique. */
  lemma SplitSum(x: int, t: int, m: int, s: int)
    requires 0 <= m < 1024 && 0 <= s < 4096 && x == t * 4194304 + m * 4096 + s
    ensures x / 4194304 == t && x / 4096 % 1024 == m && x % 4096 == s
  {
  }

  lemma DigitsOf(x: nat)
    requires x < WORD
    ensures x == x / 4194304 * 4194304 + x / 4096 % 1024 * 4096 + x % 4096
    ensures x / 4194304 < TIMESTAMP_BOUND
  {
  }

  /** Every field comes back from a packed word while the timestamp fits 42 bits. */
  lemma PackThenUnpack(timestamp: nat, machine: nat, sequence: nat)
    requires timestamp < TIMESTAMP_BOUND && machine <= MAX_MACHINE_ID && sequence <= MAX_SEQUENCE
    ensures Pack(timestamp, machine, sequence) < WORD
    ensures TimestampMs(Pack(timestamp, machine, sequence)) == timestamp
    ensures MachineId(Pack(timestamp, machine, sequence)) == machine
    ensures Sequence(Pack(timestamp, machine, sequence)) == sequence
  {
    PackIsSmallSum(timestamp, machine, sequence);
    FieldsOfSum(Pack(timestamp, machine, sequence), timestamp, machine, sequence);
  }

  lemma FieldsOfSum(id: Id, timestamp: nat, machine: nat, sequence: nat)
    requires machine <= MAX_MACHINE_ID && sequence <= MAX_SEQUENCE
    requires id == timestamp * 4194304 + machine * 4096 + sequence
    ensures TimestampMs(id) == timestamp && MachineId(id) == machine && Sequence(id) == sequence
  {
    FieldsAreDigits(id);
    SplitSum(id, timestamp, machine, sequence);
  }

  /** No 64-bit id holds anything but its three fields. */
  lemma UnpackThenPack(id: Id)
    ensures TimestampMs(id) < TIMESTAMP_BOUND
    ensures MachineId(id) <= MAX_MACHINE_ID && Sequence(id) <= MAX_SEQUENCE
    ensures Pack(TimestampMs(id), MachineId(id), Sequence(id)) == id
  {
    FieldsAreDigits(id);
    DigitsOf(id);
    PackOfDigits(id, TimestampMs(id), MachineId(id), Sequence(id));
  }

  lemma PackOfDigits(id: Id, timestamp: nat, machine: nat, sequence: nat)
    requires timestamp < TIMESTAMP_BOUND && machine <= MAX_MACHINE_ID && sequence <= MAX_SEQUENCE
    requires id == timestamp * 4194304 + machine * 4096 + sequence
    ensures Pack(timestamp, machine, sequence) == id
  {
    PackIsSmallSum(timestamp, machine, sequence);
  }

  /**
   * Two packed words collide exactly when machine, sequence and the low 42 bits
   * of the timestamps agree: past 2^42 ms the ids start over.
   */
  lemma PackCollidesIff(t1: nat, m1: nat, s1: nat, t2: nat, m2: nat, s2: nat)
    requires m1 <= MAX_MACHINE_ID && s1 <= MAX_SEQUENCE && m2 <= MAX_MACHINE_ID && s2 <= MAX_SEQUENCE
    ensures Pack(t1, m1, s1) == Pack(t2, m2, s2)
       <==> t1 % TIMESTAMP_BOUND == t2 % TIMESTAMP_BOUND && m1 == m2 && s1 == s2
  {
    PackIsSum(t1, m1, s1);
    PackIsSum(t2, m2, s2);
    var x1, x2 := Pack(t1, m1, s1), Pack(t2, m2, s2);
    SplitSum(x1, t1 % TIMESTAMP_BOUND, m1, s1);
    SplitSum(x2, t2 % TIMESTAMP_BOUND, m2, s2);
  }

  lemma SignedRoundTrip(id: Id)
    ensures FromSigned(ToSigned(id)) == id
    ensures forall v: Signed :: ToSigned(FromSigned(v)) == v
  {
  }

  /**
   * The signed view keeps the order of two ids exactly when they do not lie on
   * either side of the timestamp 2^41.
   */
  lemma SignedOrderIff(a: Id, b: Id)
    requires a < b
    ensures ToSigned(a) < ToSigned(b) <==> !(TimestampMs(a) < 0x200_0000_0000 <= TimestampMs(b))
  {
    FieldsAreDigits(a);
    FieldsAreDigits(b);
  }
}

/**
 * The lock-free generator: any number of threads share one packed word
 * (timestamp above a 12-bit sequence) and run the retry loop of `next_id`.
 * Clock readings are arbitrary and may go backwards.
 */
module SnowflakeGenerator {
  import opened Bits
  import opened Snowflake

  /** Where a thread stands in its current turn of the retry loop. */
  datatype Pc =
    | Idle
    | Clocked(now: nat)
    | Loaded(now: nat, observed: nat)

  datatype State = State(machine: nat, word: nat, threads: map<nat, Pc>, issued: seq<nat>)

  datatype Step =
    | ReadClock(thread: nat, now: nat)
    | Load(thread: nat)
    | Exchange(thread: nat, spurious: bool)

  datatype Proposal = Exhausted | Propose(timestamp: nat, sequence: nat)

  function Initial(machine: nat): State {
    State(machine, 0, map[], [])
  }

  function PcOf(s: State, thread: nat): Pc {
    if thread in s.threads then s.threads[thread] else Idle
  }

  /** The pair a thread computes from its clock reading and the word it loaded. */
  function Decide(now: nat, observed: nat): Proposal {
    var oldTs := ShiftRight(observed, SEQUENCE_BITS);
    var oldSeq := And(observed, MAX_SEQUENCE);
    if now > oldTs then Propose(now, 0)
    else if oldSeq + 1 > MAX_SEQUENCE then Exhausted
    else Propose(oldTs, oldSeq + 1)
  }

  function StateWord(timestamp: nat, sequence: nat): nat {
    Or(ShiftLeft(timestamp, SEQUENCE_BITS), sequence)
  }

  /** One atomic step; a step its thread is not ready for changes nothing. */
  function Next(s: State, step: Step): State {
    match step
    case ReadClock(t, now) =>
      if PcOf(s, t).Idle? then s.(threads := s.threads[t := Clocked(now)]) else s
    case Load(t) =>
      if PcOf(s, t).Clocked? then s.(threads := s.threads[t := Loaded(PcOf(s, t).now, s.word)]) else s
    case Exchange(t, spurious) =>
      if !PcOf(s, t).Loaded? then s else
      var retry := s.(threads := s.threads[t := Idle]);
      var p := Decide(PcOf(s, t).now, PcOf(s, t).observed);
      if p.Exhausted? || s.word != PcOf(s, t).observed || spurious then retry
      else Install(retry, StateWord(p.timestamp, p.sequence), Pack(p.timestamp, s.machine, p.sequence))
  }

  /** A successful exchange: the new word is in place and its id is returned. */
  function Install(s: State, word: nat, id: nat): State {
    s.(word := word, issued := s.issued + [id])
  }

  function Run(s: State, steps: seq<Step>): State
    decreases |steps|
  {
    if steps == [] then s else Run(Next(s, steps[0]), steps[1..])
  }

  /** Every clock reading of the run is a 42-bit number of milliseconds. */
  ghost predicate ClockFits(steps: seq<Step>) {
    forall i | 0 <= i < |steps| :: steps[i].ReadClock? ==> steps[i].now < TIMESTAMP_BOUND
  }

  ghost predicate Increasing(ids: seq<nat>) {
    forall i, j | 0 <= i < j < |ids| :: ids[i] < ids[j]
  }

  ghost predicate PcFits(pc: Pc) {
    && (pc.Clocked? ==> pc.now < TIMESTAMP_BOUND)
    && (pc.Loaded? ==> pc.now < TIMESTAMP_BOUND)
  }

  /** The id that a shared word stands for. */
  function IdOfWord(machine: nat, word: nat): nat {
    word / 4096 * 4194304 + machine * 4096 + word % 4096
  }

  ghost predicate Inv(s: State) {
    && s.machine <= MAX_MACHINE_ID
    && s.word < TIMESTAMP_BOUND * 4096
    && (forall t | t in s.threads :: PcFits(s.threads[t]))
    && Increasing(s.issued)
    && (forall i | 0 <= i < |s.issued| :: IssuedFits(s, s.issued[i]))
  }

  /** An id already handed out: a word of this machine, not above the shared word. */
  ghost predicate IssuedFits(s: State, id: nat) {
    id <= IdOfWord(s.machine, s.word) && id < WORD && id / 4096 % 1024 == s.machine
  }

  lemma IdFollowsWord(machine: nat, word: nat, later: nat)
    requires machine <= MAX_MACHINE_ID && word < later
    ensures IdOfWord(machine, word) < IdOfWord(machine, later)
  {
  }

  /** A successful exchange moves the word, and with it the id, strictly up. */
  lemma DecideAdvances(now: nat, observed: nat)
    requires now < TIMESTAMP_BOUND && observed < TIMESTAMP_BOUND * 4096
    ensures Decide(now, observed).Propose? ==>
              var p := Decide(now, observed);
              && p.timestamp < TIMESTAMP_BOUND && p.sequence <= MAX_SEQUENCE
              && StateWord(p.timestamp, p.sequence) == p.timestamp * 4096 + p.sequence > observed
  {
    Powers();
    AndMask(observed, 12);
    var p := Decide(now, observed);
    if p.Propose? {
      assert ShiftLeft(p.timestamp, 12) == p.timestamp * 4096;
      OrDisjoint(p.timestamp, p.sequence, 12);
    }
  }

  /** Installing a later word and handing out its id keeps the invariant. */
  lemma InstallKeepsInv(s: State, timestamp: nat, sequence: nat, word: nat, id: nat)
    requires Inv(s) && timestamp < TIMESTAMP_BOUND && sequence <= MAX_SEQUENCE
    requires id == timestamp * 4194304 + s.machine * 4096 + sequence < WORD
    requires word == timestamp * 4096 + sequence > s.word
    ensures Inv(Install(s, word, id))
  {
    var s' := Install(s, word, id);
    SplitSum(id, timestamp, s.machine, sequence);
    assert word / 4096 == timestamp && word % 4096 == sequence;
    assert id == IdOfWord(s.machine, word);
    IdFollowsWord(s.machine, s.word, word);
    forall i | 0 <= i < |s'.issued|
      ensures IssuedFits(s', s'.issued[i]) && (i < |s.issued| ==> s'.issued[i] < id)
    {
      if i < |s.issued| {
        assert IssuedFits(s, s.issued[i]);
      }
    }
  }

  lemma MoveThreadKeepsInv(s: State, thread: nat, pc: Pc)
    requires Inv(s) && PcFits(pc)
    ensures Inv(s.(threads := s.threads[thread := pc]))
  {
    var s' := s.(threads := s.threads[thread := pc]);
    forall i | 0 <= i < |s'.issued| ensures IssuedFits(s', s'.issued[i]) {
      assert IssuedFits(s, s.issued[i]);
    }
  }

  lemma NextKeepsInv(s: State, step: Step)
    requires Inv(s) && (step.ReadClock? ==> step.now < TIMESTAMP_BOUND)
    ensures Inv(Next(s, step)) && Next(s, step).machine == s.machine
  {
    var pc := PcOf(s, step.thread);
    match step
    case ReadClock(t, now) => MoveThreadKeepsInv(s, t, Clocked(now));
    case Load(t) =>
      if pc.Clocked? {
        MoveThreadKeepsInv(s, t, Loaded(pc.now, s.word));
      }
    case Exchange(t, _) =>
      if pc.Loaded? {
        MoveThreadKeepsInv(s, t, Idle);
        if pc.observed == s.word {
          ProposalKeepsInv(s.(threads := s.threads[t := Idle]), pc.now);
        }
      }
  }

  lemma ProposalKeepsInv(s: State, now: nat)
    requires Inv(s) && now < TIMESTAMP_BOUND
    ensures var p := Decide(now, s.word);
            p.Propose? ==> Inv(Install(s, StateWord(p.timestamp, p.sequence), Pack(p.timestamp, s.machine, p.sequence)))
  {
    DecideAdvances(now, s.word);
    var p := Decide(now, s.word);
    if p.Propose? {
      PackIsSmallSum(p.timestamp, s.machine, p.sequence);
      InstallKeepsInv(s, p.timestamp, p.sequence, StateWord(p.timestamp, p.sequence),
                      Pack(p.timestamp, s.machine, p.sequence));
    }
  }

  lemma {:induction false} RunKeepsInv(s: State, steps: seq<Step>)
    requires Inv(s) && ClockFits(steps)
    ensures Inv(Run(s, steps)) && Run(s, steps).machine == s.machine
    decreases |steps|
  {
    if steps != [] {
      NextKeepsInv(s, steps[0]);
      RunKeepsInv(Next(s, steps[0]), steps[1..]);
    }
  }

  /**
   * In every interleaving of every set of threads, ids come out strictly
   * increasing in the order of the successful exchanges, hence pairwise
   * distinct, and each carries the generator's machine id.
   */
  lemma IssuedIdsIncrease(machine: nat, steps: seq<Step>)
    requires machine <= MAX_MACHINE_ID && ClockFits(steps)
    ensures var ids := Run(Initial(machine), steps).issued;
            && (forall i, j | 0 <= i < j < |ids| :: ids[i] < ids[j])
            && (forall i | 0 <= i < |ids| :: ids[i] < WORD && MachineId(ids[i]) == machine)
  {
    RunKeepsInv(Initial(machine), steps);
    var ids := Run(Initial(machine), steps).issued;
    forall i | 0 <= i < |ids|
      ensures ids[i] < WORD && MachineId(ids[i]) == machine
    {
      assert IssuedFits(Run(Initial(machine), steps), ids[i]);
      FieldsAreDigits(ids[i]);
    }
  }

  /** Two generators with different machine ids never issue a common id. */
  lemma MachinesNeverCollide(m1: nat, steps1: seq<Step>, m2: nat, steps2: seq<Step>)
    requires m1 <= MAX_MACHINE_ID && m2 <= MAX_MACHINE_ID && m1 != m2
    requires ClockFits(steps1) && ClockFits(steps2)
    ensures forall x | x in Run(Initial(m1), steps1).issued :: x !in Run(Initial(m2), steps2).issued
  {
    IssuedIdsIncrease(m1, steps1);
    IssuedIdsIncrease(m2, steps2);
  }

  function Turn(thread: nat, now: nat): seq<Step> {
    [ReadClock(thread, now), Load(thread), Exchange(thread, false)]
  }

  /** Timestamps that fit above the sequence in the shared word. */
  const STATE_BOUND := 0x10_0000_0000_0000

  lemma DecideDigits(now: nat, timestamp: nat, sequence: nat)
    requires timestamp < STATE_BOUND && sequence <= 4095
    ensures Decide(now, timestamp * 4096 + sequence)
         == if now > timestamp then Propose(now, 0)
            else if sequence < 4095 then Propose(timestamp, sequence + 1)
            else Exhausted
  {
    var word := timestamp * 4096 + sequence;
    Powers();
    AndMask(word, 12);
    WordDigits(word, timestamp, sequence);
  }

  lemma WordDigits(word: nat, timestamp: nat, sequence: nat)
    requires sequence <= 4095 && word == timestamp * 4096 + sequence
    ensures word / 4096 == timestamp && word % 4096 == sequence
  {
  }

  lemma StateWordIsSum(timestamp: nat, sequence: nat)
    requires timestamp < STATE_BOUND && sequence <= 4095
    ensures StateWord(timestamp, sequence) == timestamp * 4096 + sequence
  {
    Powers();
    assert ShiftLeft(timestamp, 12) == timestamp * 4096;
    OrDisjoint(timestamp, sequence, 12);
  }

  /** How a turn ends that found the given timestamp and sequence in the shared word: what is there now and what is issued. */
  ghost predicate Outcome(s: State, s': State, thread: nat, now: nat, timestamp: nat, sequence: nat) {
    && s'.machine == s.machine && PcOf(s', thread).Idle?
    && (forall u | u != thread :: PcOf(s', u) == PcOf(s, u))
    && (if now > timestamp then
          s'.word == now * 4096 && s'.issued == s.issued + [Pack(now, s.machine, 0)]
        else if sequence < 4095 then
          s'.word == timestamp * 4096 + sequence + 1 && s'.issued == s.issued + [Pack(timestamp, s.machine, sequence + 1)]
        else
          s'.word == s.word && s'.issued == s.issued)
  }

  /**
   * An exchange that fails leaves the word and the ids alone. One that succeeds
   * starts a later millisecond at sequence 0, goes on by one within the same,
   * or after a backward clock, and hands out nothing once 4095 is reached.
   */
  lemma ExchangeOutcome(s: State, thread: nat, spurious: bool, now: nat, timestamp: nat, sequence: nat)
    requires PcOf(s, thread) == Loaded(now, timestamp * 4096 + sequence)
    requires now < STATE_BOUND && timestamp < STATE_BOUND && sequence <= 4095
    ensures var s' := Next(s, Exchange(thread, spurious));
            if spurious || s.word != timestamp * 4096 + sequence
            then s' == s.(threads := s.threads[thread := Idle])
            else Outcome(s, s', thread, now, timestamp, sequence)
  {
    DecideDigits(now, timestamp, sequence);
    var p := Decide(now, timestamp * 4096 + sequence);
    if p.Propose? {
      StateWordIsSum(p.timestamp, p.sequence);
    }
  }

  /** So ends a turn that no other thread disturbs. */
  lemma UndisturbedTurn(s: State, thread: nat, now: nat, timestamp: nat, sequence: nat)
    requires PcOf(s, thread).Idle? && s.word == timestamp * 4096 + sequence
    requires now < STATE_BOUND && timestamp < STATE_BOUND && sequence <= 4095
    ensures Outcome(s, Run(s, Turn(thread, now)), thread, now, timestamp, sequence)
  {
    var s1 := Next(s, ReadClock(thread, now));
    var s2 := Next(s1, Load(thread));
    assert PcOf(s2, thread) == Loaded(now, s.word);
    RunCons(s, ReadClock(thread, now), [Load(thread), Exchange(thread, false)]);
    RunCons(s1, Load(thread), [Exchange(thread, false)]);
    RunCons(s2, Exchange(thread, false), []);
    ExchangeOutcome(s2, thread, false, now, timestamp, sequence);
  }

  /** Turns one after the other, each a thread and its clock reading. */
  function Turns(turns: seq<(nat, nat)>): seq<Step> {
    if turns == [] then [] else Turn(turns[0].0, turns[0].1) + Turns(turns[1..])
  }

  /** The ids of one millisecond from the given sequence on. */
  function Consecutive(timestamp: nat, machine: nat, from: nat, count: nat): seq<nat>
    decreases count
  {
    if count == 0 then []
    else [Pack(timestamp, machine, from)] + Consecutive(timestamp, machine, from + 1, count - 1)
  }

  lemma {:induction false} ConsecutiveAt(timestamp: nat, machine: nat, from: nat, count: nat, i: nat)
    requires i < count
    ensures |Consecutive(timestamp, machine, from, count)| == count
    ensures Consecutive(timestamp, machine, from, count)[i] == Pack(timestamp, machine, from + i)
    decreases count
  {
    if count > 1 {
      ConsecutiveAt(timestamp, machine, from + 1, count - 1, if i > 0 then i - 1 else 0);
    }
  }

  lemma FirstOf(ids: seq<nat>, id: nat, more: seq<nat>)
    ensures ids + ([id] + more) == (ids + [id]) + more
  {
  }

  ghost predicate AllIdle(s: State) {
    forall t :: PcOf(s, t).Idle?
  }

  /** While the clock does not pass the timestamp the count goes on from it, up to 4095, and then stops. */
  lemma {:induction false} CountsOn(s: State, turns: seq<(nat, nat)>, timestamp: nat, sequence: nat)
    requires AllIdle(s) && s.word == timestamp * 4096 + sequence && timestamp < STATE_BOUND && sequence <= 4095
    requires forall i | 0 <= i < |turns| :: turns[i].1 <= timestamp
    ensures var s', count := Run(s, Turns(turns)), if |turns| <= 4095 - sequence then |turns| else 4095 - sequence;
            && AllIdle(s') && s'.word == timestamp * 4096 + sequence + count && s'.machine == s.machine
            && s'.issued == s.issued + Consecutive(timestamp, s.machine, sequence + 1, count)
    decreases |turns|
  {
    if turns != [] {
      var s1, rest := Run(s, Turn(turns[0].0, turns[0].1)), turns[1..];
      FirstTurn(s, turns, timestamp, sequence);
      if sequence < 4095 {
        CountsOn(s1, rest, timestamp, sequence + 1);
        var count := if |rest| <= 4094 - sequence then |rest| else 4094 - sequence;
        FirstOf(s.issued, Pack(timestamp, s.machine, sequence + 1), Consecutive(timestamp, s.machine, sequence + 2, count));
      } else {
        CountsOn(s1, rest, timestamp, sequence);
      }
    }
  }

  lemma {:induction false} FirstTurn(s: State, turns: seq<(nat, nat)>, timestamp: nat, sequence: nat)
    requires AllIdle(s) && s.word == timestamp * 4096 + sequence && timestamp < STATE_BOUND && sequence <= 4095
    requires turns != [] && turns[0].1 <= timestamp
    ensures var s1 := Run(s, Turn(turns[0].0, turns[0].1));
            && Run(s, Turns(turns)) == Run(s1, Turns(turns[1..]))
            && AllIdle(s1) && s1.machine == s.machine
            && (if sequence < 4095
                then s1.word == s.word + 1 && s1.issued == s.issued + [Pack(timestamp, s.machine, sequence + 1)]
                else s1.word == s.word && s1.issued == s.issued)
  {
    UndisturbedTurn(s, turns[0].0, turns[0].1, timestamp, sequence);
    RunAppend(s, Turn(turns[0].0, turns[0].1), Turns(turns[1..]));
  }

  /**
   * In one millisecond of a fresh generator, and while the clock stands still or
   * runs backwards, n turns one after the other, of any threads, issue the ids
   * with sequences 0, 1, ... in order: n of them, or 4096 if there are more turns.
   */
  lemma {:induction false} SameMillisecond(machine: nat, turns: seq<(nat, nat)>, t: nat)
    requires turns != [] && turns[0].1 == t && 0 < t < STATE_BOUND
    requires forall i | 0 <= i < |turns| :: turns[i].1 <= t
    ensures Run(Initial(machine), Turns(turns)).issued
         == Consecutive(t, machine, 0, if |turns| <= 4096 then |turns| else 4096)
  {
    var rest := turns[1..];
    FreshTurn(machine, turns, t);
    CountsOn(Run(Initial(machine), Turn(turns[0].0, t)), rest, t, 0);
    ConsecutiveStarts(t, machine, if |rest| <= 4095 then |rest| else 4095);
  }

  lemma {:induction false} FreshTurn(machine: nat, turns: seq<(nat, nat)>, t: nat)
    requires turns != [] && turns[0].1 == t && 0 < t < STATE_BOUND
    ensures var s1 := Run(Initial(machine), Turn(turns[0].0, t));
            && Run(Initial(machine), Turns(turns)) == Run(s1, Turns(turns[1..]))
            && AllIdle(s1) && s1.machine == machine && s1.word == t * 4096 && s1.issued == [Pack(t, machine, 0)]
  {
    UndisturbedTurn(Initial(machine), turns[0].0, t, 0, 0);
    RunAppend(Initial(machine), Turn(turns[0].0, t), Turns(turns[1..]));
  }

  lemma ConsecutiveStarts(t: nat, machine: nat, count: nat)
    ensures [Pack(t, machine, 0)] + Consecutive(t, machine, 1, count) == Consecutive(t, machine, 0, count + 1)
  {
  }

  lemma RunCons(s: State, step: Step, rest: seq<Step>)
    ensures Run(s, [step] + rest) == Run(Next(s, step), rest)
  {
    assert ([step] + rest)[1..] == rest;
  }

  lemma {:induction false} RunAppend(s: State, first: seq<Step>, second: seq<Step>)
    ensures Run(s, first + second) == Run(Run(s, first), second)
    decreases |first|
  {
    if first == [] {
      assert first + second == second;
    } else {
      assert (first + second)[1..] == first[1..] + second;
      RunAppend(Next(s, first[0]), first[1..], second);
    }
  }

  lemma TwoTurns(machine: nat, t: nat, late: nat)
    requires 0 < t < late < STATE_BOUND
    ensures Run(Initial(machine), Turn(0, t) + Turn(0, late)).issued == [Pack(t, machine, 0), Pack(late, machine, 0)]
  {
    UndisturbedTurn(Initial(machine), 0, t, 0, 0);
    UndisturbedTurn(Run(Initial(machine), Turn(0, t)), 0, late, t, 0);
    RunAppend(Initial(machine), Turn(0, t), Turn(0, late));
  }

  /**
   * Without the 42-bit bound on the clock uniqueness is lost: a thread that
   * reads t and, 2^42 ms later, the clock again is handed the same id twice.
   */
  lemma LateClockRepeatsAnId(machine: nat, t: nat)
    requires machine <= MAX_MACHINE_ID && 0 < t < TIMESTAMP_BOUND
    ensures var steps := Turn(0, t) + Turn(0, t + TIMESTAMP_BOUND);
            var ids := Run(Initial(machine), steps).issued;
            |ids| == 2 && ids[0] == ids[1]
  {
    TwoTurns(machine, t, t + TIMESTAMP_BOUND);
    LatePack(machine, t);
  }

  lemma LatePack(machine: nat, t: nat)
    requires machine <= MAX_MACHINE_ID
    ensures Pack(t, machine, 0) == Pack(t + TIMESTAMP_BOUND, machine, 0)
  {
    ModShift(t);
    PackCollidesIff(t, machine, 0, t + TIMESTAMP_BOUND, machine, 0);
  }

  lemma ModShift(t: nat)
    ensures (t + TIMESTAMP_BOUND) % TIMESTAMP_BOUND == t % TIMESTAMP_BOUND
  {
  }
}
