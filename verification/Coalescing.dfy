/**
 * Request coalescing below a cache: of the callers that miss the cache for one
 * key at the same time, one leads and fetches, the others wait on a broadcast
 * channel. Every atomic action of a call is one step; the steps of any number
 * of calls interleave freely. Keys and values are only compared for equality.
 */
module Coalescing {

  type Key = nat
  type Value = nat
  type Task = nat

  /** Capacity of the broadcast channel. */
  const CAPACITY := 64

  datatype Outcome = Fetched(value: Value) | FetchError | TooMany | CoalescingFailed

  /**
   * A broadcast channel and what it has carried. `leader` is the call that made
   * it and `failed` whether that call's fetch failed: history that no step reads.
   */
  datatype Chan = Chan(key: Key, leader: Task, log: seq<Value>, failed: bool)

  /** Where a call stands. */
  datatype Pc =
    | AtCache(key: Key)
    | AtGuard(key: Key)
    | AtLookup(key: Key)
    | AtEntry(key: Key)
    | Cloned(key: Key, chan: nat)
    | Waiting(key: Key, chan: nat, from: nat, holdsSender: bool)
    | Fetching(key: Key, chan: nat)
    | Storing(key: Key, chan: nat, value: Value)
    | Sending(key: Key, chan: nat, value: Value)
    | Removing(key: Key, chan: nat, value: Value)
    | Failing(key: Key, chan: nat)
    | FailRemoving(key: Key, chan: nat)
    | Received(key: Key, chan: nat, from: nat, outcome: Outcome)
    | Done(key: Key, outcome: Outcome)

  datatype State = State(
    maxInFlight: nat,
    cache: map<Key, Value>,
    inFlight: map<Key, nat>,
    chans: seq<Chan>,
    tasks: map<Task, Pc>,
    produced: set<(Key, Value)>)

  datatype Step =
    | Call(task: Task, key: Key)
    | ReadCache(task: Task, reachable: bool)
    | CheckLimit(task: Task)
    | Lookup(task: Task)
    | TakeEntry(task: Task)
    | Subscribe(task: Task)
    | FetchOk(task: Task, value: Value)
    | FetchFails(task: Task)
    | StoreCache(task: Task, reachable: bool)
    | Send(task: Task)
    | DropSender(task: Task)
    | Remove(task: Task)
    | Receive(task: Task)
    | Evict(key: Key)

  function Initial(maxInFlight: nat): State {
    State(maxInFlight, map[], map[], [], map[], {})
  }

  /** A call between its insertion into the in-flight map and its removal from it. */
  predicate Leading(pc: Pc) {
    pc.Fetching? || pc.Storing? || pc.Sending? || pc.Removing? || pc.Failing? || pc.FailRemoving?
  }

  /** A call that keeps its own clone of the channel's sender. */
  predicate HoldsSender(pc: Pc, chan: nat) {
    || ((pc.Fetching? || pc.Storing? || pc.Sending? || pc.Removing? || pc.Failing? || pc.Cloned?) && pc.chan == chan)
    || (pc.Waiting? && pc.holdsSender && pc.chan == chan)
  }

  /** All senders are gone: the in-flight map's own and every call's clone. */
  predicate Closed(s: State, chan: nat) {
    && (forall k | k in s.inFlight :: s.inFlight[k] != chan)
    && (forall t | t in s.tasks :: !HoldsSender(s.tasks[t], chan))
  }

  function Move(s: State, t: Task, pc: Pc): State {
    s.(tasks := s.tasks[t := pc])
  }

  /** What the receiver of a waiting call returns, if it returns at all. */
  function Deliver(s: State, pc: Pc): Pc
    requires pc.Waiting? && pc.chan < |s.chans|
  {
    var log := s.chans[pc.chan].log;
    if pc.from < |log| then
      Received(pc.key, pc.chan, pc.from,
               if |log| - pc.from > CAPACITY then CoalescingFailed else Fetched(log[pc.from]))
    else if Closed(s, pc.chan) then Received(pc.key, pc.chan, pc.from, CoalescingFailed)
    else pc
  }

  /** One step; a step its call is not ready for changes nothing. */
  function Next(s: State, step: Step): State {
    match step
    case Call(t, key) => if t in s.tasks then s else Move(s, t, AtCache(key))
    case Evict(key) => s.(cache := s.cache - {key})
    case _ => if step.task in s.tasks then Act(s, step.task, s.tasks[step.task], step) else s
  }

  function Act(s: State, t: Task, pc: Pc, step: Step): State
    requires !step.Call? && !step.Evict?
  {
    match step
    case ReadCache(_, reachable) =>
      if !pc.AtCache? then s
      else if reachable && pc.key in s.cache then Move(s, t, Done(pc.key, Fetched(s.cache[pc.key])))
      else Move(s, t, AtGuard(pc.key))
    case CheckLimit(_) =>
      if !pc.AtGuard? then s
      else if s.maxInFlight > 0 && |s.inFlight| >= s.maxInFlight then Move(s, t, Done(pc.key, TooMany))
      else Move(s, t, AtLookup(pc.key))
    case Lookup(_) =>
      if !pc.AtLookup? then s
      else if pc.key in s.inFlight && s.inFlight[pc.key] < |s.chans| then
        var chan := s.inFlight[pc.key];
        Move(s, t, Waiting(pc.key, chan, |s.chans[chan].log|, false))
      else Move(s, t, AtEntry(pc.key))
    case TakeEntry(_) =>
      if !pc.AtEntry? then s
      else if pc.key in s.inFlight then Move(s, t, Cloned(pc.key, s.inFlight[pc.key]))
      else Lead(s, t, pc.key)
    case Subscribe(_) =>
      if !(pc.Cloned? && pc.chan < |s.chans|) then s
      else Move(s, t, Waiting(pc.key, pc.chan, |s.chans[pc.chan].log|, true))
    case FetchOk(_, value) =>
      if !pc.Fetching? then s
      else Move(s, t, Storing(pc.key, pc.chan, value)).(produced := s.produced + {(pc.key, value)})
    case FetchFails(_) =>
      if !(pc.Fetching? && pc.chan < |s.chans|) then s
      else Move(s, t, Failing(pc.key, pc.chan)).(chans := s.chans[pc.chan := s.chans[pc.chan].(failed := true)])
    case StoreCache(_, reachable) =>
      if !pc.Storing? then s
      else Move(s, t, Sending(pc.key, pc.chan, pc.value))
           .(cache := if reachable then s.cache[pc.key := pc.value] else s.cache)
    case Send(_) =>
      if !(pc.Sending? && pc.chan < |s.chans|) then s
      else Move(s, t, Removing(pc.key, pc.chan, pc.value))
           .(chans := s.chans[pc.chan := s.chans[pc.chan].(log := s.chans[pc.chan].log + [pc.value])])
    case DropSender(_) =>
      if !pc.Failing? then s else Move(s, t, FailRemoving(pc.key, pc.chan))
    case Remove(_) =>
      if pc.Removing? then Finish(s, t, pc.key, Fetched(pc.value))
      else if pc.FailRemoving? then Finish(s, t, pc.key, FetchError)
      else s
    case Receive(_) =>
      if !(pc.Waiting? && pc.chan < |s.chans|) then s else Move(s, t, Deliver(s, pc))
  }

  /** The vacant entry: a new channel goes into the map and this call leads. */
  function Lead(s: State, t: Task, key: Key): State {
    Move(s, t, Fetching(key, |s.chans|))
    .(inFlight := s.inFlight[key := |s.chans|], chans := s.chans + [Chan(key, t, [], false)])
  }

  function Finish(s: State, t: Task, key: Key, outcome: Outcome): State {
    Move(s, t, Done(key, outcome)).(inFlight := s.inFlight - {key})
  }

  function Run(s: State, steps: seq<Step>): State
    decreases |steps|
  {
    if steps == [] then s else Run(Next(s, steps[0]), steps[1..])
  }

  // ---- The invariant

  ghost predicate TaskOk(s: State, t: Task, pc: Pc) {
    && (Leading(pc) ==> pc.key in s.inFlight && s.inFlight[pc.key] == pc.chan)
    && (Leading(pc) ==> pc.chan < |s.chans| && s.chans[pc.chan].leader == t)
    && (pc.Storing? || pc.Sending? || pc.Removing? ==> (pc.key, pc.value) in s.produced)
    && (pc.Cloned? ==> pc.chan < |s.chans| && s.chans[pc.chan].key == pc.key)
    && (pc.Waiting? ==> pc.chan < |s.chans| && s.chans[pc.chan].key == pc.key && pc.from <= |s.chans[pc.chan].log|)
    && (pc.Received? ==> pc.chan < |s.chans| && s.chans[pc.chan].key == pc.key
                         && Explained(s.chans[pc.chan], pc.from, pc.outcome))
    && (pc.Done? && pc.outcome.Fetched? ==> (pc.key, pc.outcome.value) in s.produced)
    && (pc.Done? ==> pc.outcome != CoalescingFailed)
  }

  /** Why a follower got what it got. */
  ghost predicate Explained(c: Chan, from: nat, outcome: Outcome) {
    match outcome
    case Fetched(v) => from == 0 && c.log == [v]
    case CoalescingFailed => (from == 1 && |c.log| == 1) || (from == 0 && c.failed)
    case _ => false
  }

  /** A channel against the state of the call that made it. */
  ghost predicate PhaseOk(c: Chan, chan: nat, pc: Pc) {
    && pc.key == c.key
    && match pc
       case Fetching(_, id) => id == chan && c.log == [] && !c.failed
       case Storing(_, id, _) => id == chan && c.log == [] && !c.failed
       case Sending(_, id, _) => id == chan && c.log == [] && !c.failed
       case Removing(_, id, v) => id == chan && c.log == [v] && !c.failed
       case Failing(_, id) => id == chan && c.log == [] && c.failed
       case FailRemoving(_, id) => id == chan && c.log == [] && c.failed
       case Done(_, Fetched(v)) => c.log == [v] && !c.failed
       case Done(_, FetchError) => c.log == [] && c.failed
       case _ => false
  }

  ghost predicate ChanOk(s: State, chan: nat, c: Chan) {
    && c.leader in s.tasks && PhaseOk(c, chan, s.tasks[c.leader])
    && forall v | v in c.log :: (c.key, v) in s.produced
  }

  ghost predicate EntryOk(s: State, key: Key, chan: nat) {
    && chan < |s.chans| && s.chans[chan].key == key
    && s.chans[chan].leader in s.tasks && Leading(s.tasks[s.chans[chan].leader])
  }

  ghost predicate Inv(s: State) {
    && (forall t | t in s.tasks :: TaskOk(s, t, s.tasks[t]))
    && (forall i | 0 <= i < |s.chans| :: ChanOk(s, i, s.chans[i]))
    && (forall k | k in s.inFlight :: EntryOk(s, k, s.inFlight[k]))
    && (forall k | k in s.cache :: (k, s.cache[k]) in s.produced)
  }

  /** A call that never led moves on: nothing but its own place is concerned. */
  lemma FollowerMoves(s: State, t: Task, pc: Pc)
    requires Inv(s) && !Leading(pc)
    requires t in s.tasks ==> !Leading(s.tasks[t]) && !s.tasks[t].Done?
    requires TaskOk(s, t, pc)
    ensures Inv(Move(s, t, pc))
  {
    var s' := Move(s, t, pc);
    forall u | u in s'.tasks ensures TaskOk(s', u, s'.tasks[u]) {
      if u != t {
        assert TaskOk(s, u, s.tasks[u]);
      }
    }
    forall i | 0 <= i < |s'.chans| ensures ChanOk(s', i, s'.chans[i]) {
      assert ChanOk(s, i, s.chans[i]);
    }
    forall k | k in s'.inFlight ensures EntryOk(s', k, s'.inFlight[k]) {
      assert EntryOk(s, k, s.inFlight[k]);
    }
  }

  /** A leader goes on: its own channel and the history may change with it. */
  lemma LeaderMoves(s: State, s': State, t: Task, pc: Pc, c: Chan)
    requires Inv(s) && t in s.tasks && Leading(s.tasks[t]) && Leading(pc)
    requires pc.key == s.tasks[t].key && pc.chan == s.tasks[t].chan && pc.chan < |s.chans|
    requires c.key == s.chans[pc.chan].key && c.leader == t && s.chans[pc.chan].log <= c.log
    requires s.chans[pc.chan].failed ==> c.failed
    requires s' == s.(tasks := s.tasks[t := pc], chans := s.chans[pc.chan := c], cache := s'.cache, produced := s'.produced)
    requires s.produced <= s'.produced && TaskOk(s', t, pc) && PhaseOk(c, pc.chan, pc)
    requires forall v | v in c.log :: (c.key, v) in s'.produced
    requires forall k | k in s'.cache :: (k, s'.cache[k]) in s'.produced
    ensures Inv(s')
  {
    forall u | u in s'.tasks ensures TaskOk(s', u, s'.tasks[u]) {
      if u != t {
        assert TaskOk(s, u, s.tasks[u]);
        OtherTaskOk(s, s', u, pc.chan, t);
      }
    }
    forall i | 0 <= i < |s'.chans| ensures ChanOk(s', i, s'.chans[i]) {
      assert ChanOk(s, i, s.chans[i]);
    }
    forall k | k in s'.inFlight ensures EntryOk(s', k, s'.inFlight[k]) {
      assert EntryOk(s, k, s.inFlight[k]);
    }
  }

  lemma OtherTaskOk(s: State, s': State, u: Task, chan: nat, t: Task)
    requires Inv(s) && u in s.tasks && u != t && chan < |s.chans| == |s'.chans| && s.chans[chan].leader == t
    requires t in s.tasks && Leading(s.tasks[t]) && s.tasks[t].chan == chan
    requires s'.inFlight == s.inFlight && s.produced <= s'.produced
    requires s'.chans == s.chans[chan := s'.chans[chan]]
    requires s'.chans[chan].key == s.chans[chan].key && s'.chans[chan].leader == t
    requires s.chans[chan].log <= s'.chans[chan].log && (s.chans[chan].failed ==> s'.chans[chan].failed)
    requires |s'.chans[chan].log| <= 1
    ensures TaskOk(s', u, s.tasks[u])
  {
    assert TaskOk(s, u, s.tasks[u]);
    var pc := s.tasks[u];
    if pc.Received? {
      var c, c' := s.chans[pc.chan], s'.chans[pc.chan];
      if c.log != [] && pc.chan == chan {
        assert c'.log == c.log;
      }
    }
  }

  lemma LeadKeepsInv(s: State, t: Task, key: Key)
    requires Inv(s) && t in s.tasks && s.tasks[t] == AtEntry(key) && key !in s.inFlight
    ensures Inv(Lead(s, t, key))
  {
    var s' := Lead(s, t, key);
    forall u | u in s'.tasks ensures TaskOk(s', u, s'.tasks[u]) {
      if u != t {
        assert TaskOk(s, u, s.tasks[u]);
      }
    }
    forall i | 0 <= i < |s'.chans| ensures ChanOk(s', i, s'.chans[i]) {
      if i < |s.chans| {
        assert ChanOk(s, i, s.chans[i]);
      }
    }
    forall k | k in s'.inFlight ensures EntryOk(s', k, s'.inFlight[k]) {
      if k != key {
        assert EntryOk(s, k, s.inFlight[k]);
      }
    }
  }

  lemma FinishKeepsInv(s: State, t: Task, outcome: Outcome)
    requires Inv(s) && t in s.tasks
    requires var pc := s.tasks[t];
             (pc.Removing? && outcome == Fetched(pc.value)) || (pc.FailRemoving? && outcome == FetchError)
    ensures Inv(Finish(s, t, s.tasks[t].key, outcome))
  {
    var key := s.tasks[t].key;
    var s' := Finish(s, t, key, outcome);
    assert TaskOk(s, t, s.tasks[t]);
    forall u | u in s'.tasks ensures TaskOk(s', u, s'.tasks[u]) {
      if u != t {
        assert TaskOk(s, u, s.tasks[u]);
      }
    }
    forall i | 0 <= i < |s'.chans| ensures ChanOk(s', i, s'.chans[i]) {
      assert ChanOk(s, i, s.chans[i]);
    }
    forall k | k in s'.inFlight ensures EntryOk(s', k, s'.inFlight[k]) {
      assert EntryOk(s, k, s.inFlight[k]);
    }
  }

  /** A receiver that finds its channel closed missed the value or had a failed leader. */
  lemma ClosedIsExplained(s: State, chan: nat, from: nat)
    requires Inv(s) && chan < |s.chans| && from == |s.chans[chan].log| && Closed(s, chan)
    ensures Explained(s.chans[chan], from, CoalescingFailed)
  {
    var c := s.chans[chan];
    assert ChanOk(s, chan, c);
    var pc := s.tasks[c.leader];
    assert !HoldsSender(pc, chan);
    if pc.FailRemoving? {
      assert TaskOk(s, c.leader, pc);
    }
  }

  lemma ReceiveKeepsInv(s: State, t: Task)
    requires Inv(s) && t in s.tasks && s.tasks[t].Waiting?
    ensures s.tasks[t].chan < |s.chans| && Inv(Move(s, t, Deliver(s, s.tasks[t])))
  {
    var pc := s.tasks[t];
    assert TaskOk(s, t, pc);
    var c := s.chans[pc.chan];
    assert ChanOk(s, pc.chan, c);
    assert |c.log| <= 1;
    if pc.from == |c.log| && Closed(s, pc.chan) {
      ClosedIsExplained(s, pc.chan, pc.from);
    }
    if pc.from < |c.log| {
      assert c.log == [c.log[0]];
    }
    FollowerMoves(s, t, Deliver(s, pc));
  }

  lemma FetchKeepsInv(s: State, t: Task, step: Step)
    requires Inv(s) && t in s.tasks && !step.Evict? && step.task == t && (step.FetchOk? || step.FetchFails?)
    ensures Inv(Next(s, step))
  {
    var pc := s.tasks[t];
    assert TaskOk(s, t, pc);
    if pc.Fetching? {
      var c := s.chans[pc.chan];
      assert ChanOk(s, pc.chan, c);
      if step.FetchOk? {
        LeaderMoves(s, Next(s, step), t, Storing(pc.key, pc.chan, step.value), c);
      } else {
        LeaderMoves(s, Next(s, step), t, Failing(pc.key, pc.chan), c.(failed := true));
      }
    }
  }

  lemma SendKeepsInv(s: State, t: Task)
    requires Inv(s) && t in s.tasks && s.tasks[t].Sending?
    ensures Inv(Next(s, Send(t)))
  {
    var pc := s.tasks[t];
    assert TaskOk(s, t, pc);
    var c := s.chans[pc.chan];
    assert ChanOk(s, pc.chan, c);
    assert c.log + [pc.value] == [pc.value];
    LeaderMoves(s, Next(s, Send(t)), t, Removing(pc.key, pc.chan, pc.value), c.(log := [pc.value]));
  }

  lemma LeaderActKeepsInv(s: State, t: Task, step: Step)
    requires Inv(s) && t in s.tasks && !step.Evict? && step.task == t
    requires step.StoreCache? || step.Send? || step.DropSender?
    ensures Inv(Next(s, step))
  {
    var pc := s.tasks[t];
    assert TaskOk(s, t, pc);
    if step.StoreCache? && pc.Storing? {
      assert ChanOk(s, pc.chan, s.chans[pc.chan]);
      LeaderMoves(s, Next(s, step), t, Sending(pc.key, pc.chan, pc.value), s.chans[pc.chan]);
    } else if step.Send? && pc.Sending? {
      SendKeepsInv(s, t);
    } else if step.DropSender? && pc.Failing? {
      assert ChanOk(s, pc.chan, s.chans[pc.chan]);
      LeaderMoves(s, Next(s, step), t, FailRemoving(pc.key, pc.chan), s.chans[pc.chan]);
    }
  }

  lemma FollowerActKeepsInv(s: State, t: Task, step: Step)
    requires Inv(s) && t in s.tasks && !step.Evict? && step.task == t
    requires step.ReadCache? || step.CheckLimit? || step.Lookup? || step.TakeEntry? || step.Subscribe?
    ensures Inv(Next(s, step))
  {
    var pc, s' := s.tasks[t], Next(s, step);
    assert TaskOk(s, t, pc);
    if s' != s {
      if pc.key in s.inFlight {
        assert EntryOk(s, pc.key, s.inFlight[pc.key]);
      }
      if step.TakeEntry? && pc.key !in s.inFlight {
        LeadKeepsInv(s, t, pc.key);
      } else {
        FollowerMoves(s, t, s'.tasks[t]);
      }
    }
  }

  lemma NextKeepsInv(s: State, step: Step)
    requires Inv(s)
    ensures Inv(Next(s, step))
  {
    match step
    case Call(t, key) =>
      if t !in s.tasks {
        FollowerMoves(s, t, AtCache(key));
      }
    case Evict(key) => EvictKeepsInv(s, key);
    case _ =>
      if step.task in s.tasks {
        ActKeepsInv(s, step.task, step);
      }
  }

  lemma EvictKeepsInv(s: State, key: Key)
    requires Inv(s)
    ensures Inv(Next(s, Evict(key)))
  {
    var s' := Next(s, Evict(key));
    assert forall t | t in s'.tasks :: TaskOk(s, t, s.tasks[t]) && TaskOk(s', t, s'.tasks[t]);
    assert forall i | 0 <= i < |s'.chans| :: ChanOk(s, i, s.chans[i]) && ChanOk(s', i, s'.chans[i]);
    assert forall k | k in s'.inFlight :: EntryOk(s, k, s.inFlight[k]) && EntryOk(s', k, s'.inFlight[k]);
  }

  lemma ActKeepsInv(s: State, t: Task, step: Step)
    requires Inv(s) && !step.Call? && !step.Evict? && t in s.tasks && step.task == t
    ensures Inv(Next(s, step))
  {
    var pc := s.tasks[t];
    assert TaskOk(s, t, pc);
    if step.Receive? {
      if pc.Waiting? {
        ReceiveKeepsInv(s, t);
      }
    } else if step.Remove? {
      if pc.Removing? {
        FinishKeepsInv(s, t, Fetched(pc.value));
      } else if pc.FailRemoving? {
        FinishKeepsInv(s, t, FetchError);
      }
    } else if step.ReadCache? || step.CheckLimit? || step.Lookup? || step.TakeEntry? || step.Subscribe? {
      FollowerActKeepsInv(s, t, step);
    } else if step.FetchOk? || step.FetchFails? {
      FetchKeepsInv(s, t, step);
    } else {
      LeaderActKeepsInv(s, t, step);
    }
  }

  lemma {:induction false} RunKeepsInv(s: State, steps: seq<Step>)
    requires Inv(s)
    ensures Inv(Run(s, steps))
    decreases |steps|
  {
    if steps != [] {
      NextKeepsInv(s, steps[0]);
      RunKeepsInv(Next(s, steps[0]), steps[1..]);
    }
  }

  // ---- What every run keeps

  ghost function Leaders(s: State): set<Task> {
    set t | t in s.tasks && Leading(s.tasks[t])
  }

  function LeaderOf(s: State, key: Key): Task {
    if key in s.inFlight && s.inFlight[key] < |s.chans| then s.chans[s.inFlight[key]].leader else 0
  }

  lemma {:induction false} CountLeaders(s: State, keys: set<Key>)
    requires Inv(s) && keys <= s.inFlight.Keys
    ensures |set k | k in keys :: LeaderOf(s, k)| == |keys|
    decreases |keys|
  {
    if keys != {} {
      var key :| key in keys;
      var rest := keys - {key};
      var others := set k | k in rest :: LeaderOf(s, k);
      CountLeaders(s, rest);
      assert (set k | k in keys :: LeaderOf(s, k)) == others + {LeaderOf(s, key)};
      forall k | k in rest ensures LeaderOf(s, k) != LeaderOf(s, key) {
        LeaderLeads(s, k);
        LeaderLeads(s, key);
      }
    }
  }

  lemma LeaderLeads(s: State, key: Key)
    requires Inv(s) && key in s.inFlight
    ensures LeaderOf(s, key) in Leaders(s) && s.tasks[LeaderOf(s, key)].key == key
  {
    assert EntryOk(s, key, s.inFlight[key]);
    assert ChanOk(s, s.inFlight[key], s.chans[s.inFlight[key]]);
  }

  /**
   * In every reachable state no key has two leaders, the in-flight map holds
   * exactly the keys of the leaders, and `in_flight_count` is their number; so
   * the map is empty once no call leads.
   */
  lemma OneLeaderPerKey(maxInFlight: nat, steps: seq<Step>)
    ensures var s := Run(Initial(maxInFlight), steps);
            && (forall t, u | t in Leaders(s) && u in Leaders(s) && s.tasks[t].key == s.tasks[u].key :: t == u)
            && (forall k :: k in s.inFlight <==> exists t :: t in Leaders(s) && s.tasks[t].key == k)
            && |s.inFlight| == |Leaders(s)|
  {
    var s := Run(Initial(maxInFlight), steps);
    RunKeepsInv(Initial(maxInFlight), steps);
    forall k | k in s.inFlight ensures LeaderOf(s, k) in Leaders(s) && s.tasks[LeaderOf(s, k)].key == k {
      LeaderLeads(s, k);
    }
    forall t | t in Leaders(s) ensures s.tasks[t].key in s.inFlight && LeaderOf(s, s.tasks[t].key) == t {
      assert TaskOk(s, t, s.tasks[t]);
    }
    LeadersAreCounted(s);
  }

  lemma LeadersAreCounted(s: State)
    requires Inv(s)
    ensures |s.inFlight| == |Leaders(s)|
  {
    CountLeaders(s, s.inFlight.Keys);
    forall t
      ensures t in Leaders(s) <==> t in set k | k in s.inFlight.Keys :: LeaderOf(s, k)
    {
      if t in Leaders(s) {
        assert TaskOk(s, t, s.tasks[t]);
        assert t == LeaderOf(s, s.tasks[t].key);
      }
      if k :| k in s.inFlight.Keys && t == LeaderOf(s, k) {
        LeaderLeads(s, k);
      }
    }
    assert (set k | k in s.inFlight.Keys :: LeaderOf(s, k)) == Leaders(s);
  }

  /** Every value a caller gets for a key was produced by a fetch for that key. */
  lemma ValuesWereFetched(maxInFlight: nat, steps: seq<Step>, t: Task)
    requires t in Run(Initial(maxInFlight), steps).tasks
    ensures var s := Run(Initial(maxInFlight), steps);
            var pc := s.tasks[t];
            (pc.Done? || pc.Received?) && pc.outcome.Fetched? ==> (pc.key, pc.outcome.value) in s.produced
  {
    var s := Run(Initial(maxInFlight), steps);
    RunKeepsInv(Initial(maxInFlight), steps);
    var pc := s.tasks[t];
    assert TaskOk(s, t, pc);
    if pc.Received? && pc.outcome.Fetched? {
      assert ChanOk(s, pc.chan, s.chans[pc.chan]);
      assert pc.outcome.value in s.chans[pc.chan].log;
    }
  }

  /**
   * A follower that subscribed before its leader's send ends with exactly the
   * leader's value, and with an error only if the leader's fetch failed; one
   * that subscribed after the send never gets a value. No receiver ever lags.
   */
  lemma FollowerOutcome(maxInFlight: nat, steps: seq<Step>, t: Task)
    requires t in Run(Initial(maxInFlight), steps).tasks
    requires Run(Initial(maxInFlight), steps).tasks[t].Received?
    ensures var s := Run(Initial(maxInFlight), steps);
            var pc := s.tasks[t];
            && pc.chan < |s.chans| && |s.chans[pc.chan].log| <= CAPACITY
            && var c := s.chans[pc.chan];
               && (pc.outcome.Fetched? <==> pc.from == 0 && c.log != [])
               && (pc.outcome.Fetched? ==> c.log == [pc.outcome.value])
               && (pc.outcome == CoalescingFailed <==> pc.from > 0 || c.failed)
               && (pc.outcome.Fetched? || pc.outcome == CoalescingFailed)
               && (c.failed ==> c.log == [] && c.leader in s.tasks
                                && (Leading(s.tasks[c.leader]) || s.tasks[c.leader] == Done(c.key, FetchError)))
  {
    var s := Run(Initial(maxInFlight), steps);
    RunKeepsInv(Initial(maxInFlight), steps);
    var pc := s.tasks[t];
    assert TaskOk(s, t, pc);
    assert ChanOk(s, pc.chan, s.chans[pc.chan]);
  }

  /** A follower subscribed in time has its value the moment the leader has sent it. */
  lemma EarlyFollowerReceives(s: State, t: Task)
    requires Inv(s) && t in s.tasks && s.tasks[t].Waiting? && s.tasks[t].from == 0
    requires s.tasks[t].chan < |s.chans| && s.chans[s.tasks[t].chan].log != []
    ensures var pc, c := s.tasks[t], s.chans[s.tasks[t].chan];
            && c.leader in s.tasks
            && Next(s, Receive(t)).tasks[t] == Received(pc.key, pc.chan, 0, Fetched(c.log[0]))
            && (s.tasks[c.leader] == Removing(pc.key, pc.chan, c.log[0])
                || s.tasks[c.leader] == Done(pc.key, Fetched(c.log[0])))
  {
    var pc := s.tasks[t];
    assert TaskOk(s, t, pc);
    assert ChanOk(s, pc.chan, s.chans[pc.chan]);
  }

  // ---- Followers that wait for ever

  /**
   * A slow-path follower whose leader is finished and left nothing to receive.
   * Its own clone of the sender keeps the channel open.
   */
  ghost predicate Stranded(s: State, t: Task) {
    && t in s.tasks && s.tasks[t].Waiting? && s.tasks[t].holdsSender
    && s.tasks[t].chan < |s.chans|
    && var c := s.chans[s.tasks[t].chan];
       s.tasks[t].from == |c.log| && c.leader in s.tasks && s.tasks[c.leader].Done?
  }

  lemma StrandedStays(s: State, t: Task, step: Step)
    requires Inv(s) && Stranded(s, t)
    ensures Stranded(Next(s, step), t) && Next(s, step).tasks[t] == s.tasks[t]
  {
    assert HoldsSender(s.tasks[t], s.tasks[t].chan);
    if !step.Evict? && !step.Call? && step.task in s.tasks && step.task != t {
      OthersLeaveStranded(s, t, step);
    }
  }

  lemma OthersLeaveStranded(s: State, t: Task, step: Step)
    requires Inv(s) && Stranded(s, t) && !step.Evict? && !step.Call? && step.task in s.tasks && step.task != t
    ensures Stranded(Next(s, step), t) && Next(s, step).tasks[t] == s.tasks[t]
  {
    ActIsLocal(s, step);
    assert TaskOk(s, step.task, s.tasks[step.task]);
  }

  /** A step touches its own call, and of the channels at most the one that call leads. */
  lemma ActIsLocal(s: State, step: Step)
    requires !step.Evict? && !step.Call? && step.task in s.tasks
    ensures var s', pc := Next(s, step), s.tasks[step.task];
            && (forall u | u in s.tasks && u != step.task :: u in s'.tasks && s'.tasks[u] == s.tasks[u])
            && |s.chans| <= |s'.chans|
            && (forall i | 0 <= i < |s.chans| && !(Leading(pc) && i == pc.chan) :: s'.chans[i] == s.chans[i])
            && (pc.Done? ==> s' == s)
  {
  }

  /** No continuation of the run ever wakes it. */
  lemma {:induction false} StrandedForever(s: State, t: Task, steps: seq<Step>)
    requires Inv(s) && Stranded(s, t)
    ensures Stranded(Run(s, steps), t) && Run(s, steps).tasks[t] == s.tasks[t]
    decreases |steps|
  {
    if steps != [] {
      StrandedStays(s, t, steps[0]);
      NextKeepsInv(s, steps[0]);
      StrandedForever(Next(s, steps[0]), t, steps[1..]);
    }
  }

  /** Once its leader is finished a waiting follower can return exactly when it is not stranded
      and no stranded one holds the channel open. */
  lemma WakesIff(s: State, t: Task)
    requires Inv(s) && t in s.tasks && s.tasks[t].Waiting? && s.tasks[t].chan < |s.chans|
    requires var c := s.chans[s.tasks[t].chan]; c.leader in s.tasks && s.tasks[c.leader].Done?
    ensures Next(s, Receive(t)).tasks[t].Received?
       <==> || s.tasks[t].from < |s.chans[s.tasks[t].chan].log|
            || forall u | u in s.tasks :: !SlowFollower(s.tasks[u], s.tasks[t].chan)
  {
    var pc := s.tasks[t];
    var c := s.chans[pc.chan];
    forall u | u in s.tasks
      ensures HoldsSender(s.tasks[u], pc.chan) <==> SlowFollower(s.tasks[u], pc.chan)
    {
      assert TaskOk(s, u, s.tasks[u]);
    }
    forall k | k in s.inFlight
      ensures s.inFlight[k] != pc.chan
    {
      assert EntryOk(s, k, s.inFlight[k]);
    }
  }

  predicate SlowFollower(pc: Pc, chan: nat) {
    (pc.Cloned? || (pc.Waiting? && pc.holdsSender)) && pc.chan == chan
  }

  lemma RunCons(s: State, step: Step, rest: seq<Step>)
    ensures Run(s, [step] + rest) == Run(Next(s, step), rest)
  {
    assert ([step] + rest)[1..] == rest;
  }

  lemma {:induction false} RunAppend(s: State, first: seq<Step>, second: seq<Step>)
    ensures Run(s, first + second) == Run(Run(s, first), second)
    decreases |first|
  {
    if first == [] {
      assert first + second == second;
    } else {
      assert (first + second)[1..] == first[1..] + second;
      RunAppend(Next(s, first[0]), first[1..], second);
    }
  }

  /** A call that misses the cache and finds no request in flight. */
  function Approach(t: Task, key: Key): seq<Step> {
    [Call(t, key), ReadCache(t, true), CheckLimit(t), Lookup(t)]
  }

  lemma ApproachReachesEntry(s: State, t: Task, key: Key)
    requires t !in s.tasks && key !in s.cache && key !in s.inFlight && s.maxInFlight == 0
    ensures Run(s, Approach(t, key)) == Move(s, t, AtEntry(key))
  {
    var s1 := Move(s, t, AtCache(key));
    var s2 := Move(s1, t, AtGuard(key));
    var s3 := Move(s2, t, AtLookup(key));
    RunCons(s, Call(t, key), [ReadCache(t, true), CheckLimit(t), Lookup(t)]);
    RunCons(s1, ReadCache(t, true), [CheckLimit(t), Lookup(t)]);
    RunCons(s2, CheckLimit(t), [Lookup(t)]);
    RunCons(s3, Lookup(t), []);
    assert Move(s3, t, AtEntry(key)) == Move(s, t, AtEntry(key));
  }

  /** One call leads and fails while the other clones its sender in between. */
  function Collide(leader: Task, follower: Task): seq<Step> {
    [TakeEntry(leader), TakeEntry(follower), Subscribe(follower), FetchFails(leader), DropSender(leader), Remove(leader)]
  }

  lemma CollideFirstHalf(s: State, t: Task, u: Task, key: Key)
    requires t != u && t in s.tasks && u in s.tasks && s.tasks[t] == s.tasks[u] == AtEntry(key)
    requires key !in s.inFlight && s.chans == []
    ensures var s' := Run(s, [TakeEntry(t), TakeEntry(u), Subscribe(u)]);
            && t in s'.tasks && s'.tasks[t] == Fetching(key, 0)
            && u in s'.tasks && s'.tasks[u] == Waiting(key, 0, 0, true)
            && s'.chans == [Chan(key, t, [], false)]
  {
    var s1 := Lead(s, t, key);
    var s2 := Next(s1, TakeEntry(u));
    assert s2 == Move(s1, u, Cloned(key, 0));
    assert Next(s2, Subscribe(u)) == Move(s2, u, Waiting(key, 0, 0, true));
    RunThree(s, TakeEntry(t), TakeEntry(u), Subscribe(u));
  }

  lemma RunThree(s: State, a: Step, b: Step, c: Step)
    ensures Run(s, [a, b, c]) == Next(Next(Next(s, a), b), c)
  {
    assert [a, b, c][1..] == [b, c] && [b, c][1..] == [c] && [c][1..] == [];
    assert Run(s, [a, b, c]) == Run(Next(s, a), [b, c]);
    assert Run(Next(s, a), [b, c]) == Run(Next(Next(s, a), b), [c]);
    assert Run(Next(Next(s, a), b), [c]) == Run(Next(Next(Next(s, a), b), c), []);
  }

  lemma CollideSecondHalf(s: State, t: Task, u: Task, key: Key)
    requires t in s.tasks && s.tasks[t] == Fetching(key, 0) && s.chans == [Chan(key, t, [], false)]
    requires u in s.tasks && s.tasks[u] == Waiting(key, 0, 0, true)
    ensures Stranded(Run(s, [FetchFails(t), DropSender(t), Remove(t)]), u)
  {
    var s1 := Next(s, FetchFails(t));
    var s2 := Next(s1, DropSender(t));
    RunThree(s, FetchFails(t), DropSender(t), Remove(t));
  }

  lemma CollideStrands(s: State, t: Task, u: Task, key: Key)
    requires t != u && t in s.tasks && u in s.tasks && s.tasks[t] == s.tasks[u] == AtEntry(key)
    requires key !in s.inFlight && s.chans == []
    ensures Stranded(Run(s, Collide(t, u)), u)
  {
    CollideFirstHalf(s, t, u, key);
    CollideSecondHalf(Run(s, [TakeEntry(t), TakeEntry(u), Subscribe(u)]), t, u, key);
    RunAppend(s, [TakeEntry(t), TakeEntry(u), Subscribe(u)], [FetchFails(t), DropSender(t), Remove(t)]);
    assert Collide(t, u) == [TakeEntry(t), TakeEntry(u), Subscribe(u)] + [FetchFails(t), DropSender(t), Remove(t)];
  }

  /** A run that strands a follower exists for every key. */
  lemma FollowerCanStrand(key: Key)
    ensures Stranded(Run(Initial(0), Approach(1, key) + Approach(2, key) + Collide(1, 2)), 2)
  {
    var s0 := Initial(0);
    var s1 := Move(s0, 1, AtEntry(key));
    var s2 := Move(s1, 2, AtEntry(key));
    ApproachReachesEntry(s0, 1, key);
    ApproachReachesEntry(s1, 2, key);
    RunAppend(s0, Approach(1, key), Approach(2, key));
    RunAppend(s0, Approach(1, key) + Approach(2, key), Collide(1, 2));
    CollideStrands(s2, 1, 2, key);
  }
}
