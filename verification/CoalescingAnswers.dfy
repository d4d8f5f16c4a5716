/** What callers get: cache hits, the limit on requests in flight, and fetches alone and shared. */
module CoalescingAnswers {
  import opened Coalescing

  // ---- One step

  /** At the cache a call returns a value in that step exactly if the cache is reachable and holds it for its key. */
  lemma CacheHitIff(s: State, t: Task, reachable: bool, v: Value)
    requires t in s.tasks && s.tasks[t].AtCache?
    ensures var key, s' := s.tasks[t].key, Next(s, ReadCache(t, reachable));
            && (s'.tasks[t] == Done(key, Fetched(v)) <==> reachable && key in s.cache && s.cache[key] == v)
            && (s'.tasks[t] == AtGuard(key) <==> !reachable || key !in s.cache)
            && s' == s.(tasks := s'.tasks) && s'.tasks == s.tasks[t := s'.tasks[t]]
  {
  }

  /** At the guard it is refused exactly if there is a limit and as many calls lead already. */
  lemma TooManyIff(maxInFlight: nat, steps: seq<Step>, t: Task)
    requires var s := Run(Initial(maxInFlight), steps); t in s.tasks && s.tasks[t].AtGuard?
    ensures var s := Run(Initial(maxInFlight), steps);
            var key, s' := s.tasks[t].key, Next(s, CheckLimit(t));
            && (s'.tasks[t] == Done(key, TooMany) <==> maxInFlight > 0 && |Leaders(s)| >= maxInFlight)
            && (s'.tasks[t] == AtLookup(key) <==> maxInFlight == 0 || |Leaders(s)| < maxInFlight)
            && s' == s.(tasks := s'.tasks)
  {
    RunKeepsInv(Initial(maxInFlight), steps);
    LeadersAreCounted(Run(Initial(maxInFlight), steps));
    LimitStays(Initial(maxInFlight), steps);
  }

  lemma {:induction false} LimitStays(s: State, steps: seq<Step>)
    ensures Run(s, steps).maxInFlight == s.maxInFlight
    decreases |steps|
  {
    if steps != [] {
      LimitStays(Next(s, steps[0]), steps[1..]);
    }
  }

  /** An evicted key misses. */
  lemma EvictedMisses(s: State, key: Key)
    ensures key !in Next(s, Evict(key)).cache
    ensures forall k | k != key :: (k in Next(s, Evict(key)).cache <==> k in s.cache)
                                   && (k in s.cache ==> Next(s, Evict(key)).cache[k] == s.cache[k])
  {
  }

  // ---- A warm cache

  /** Calls for one key, one after the other, that reach the cache. */
  function Reads(ts: seq<Task>, key: Key): seq<Step> {
    if ts == [] then [] else [Call(ts[0], key), ReadCache(ts[0], true)] + Reads(ts[1..], key)
  }

  ghost predicate Fresh(s: State, ts: seq<Task>) {
    && (forall t | t in ts :: t !in s.tasks)
    && (forall i, j | 0 <= i < j < |ts| :: ts[i] != ts[j])
  }

  lemma RunTwo(s: State, a: Step, b: Step)
    ensures Run(s, [a, b]) == Next(Next(s, a), b)
  {
    assert [a, b][1..] == [b] && [b][1..] == [];
    assert Run(s, [a, b]) == Run(Next(s, a), [b]);
  }

  lemma OneRead(s: State, t: Task, key: Key)
    requires t !in s.tasks && key in s.cache
    ensures Run(s, [Call(t, key), ReadCache(t, true)]) == Move(s, t, Done(key, Fetched(s.cache[key])))
  {
    RunTwo(s, Call(t, key), ReadCache(t, true));
    var s1 := Next(s, Call(t, key));
    assert s1 == Move(s, t, AtCache(key));
    assert Move(s1, t, Done(key, Fetched(s.cache[key]))) == Move(s, t, Done(key, Fetched(s.cache[key])));
  }

  /** From a cache that holds the key every call gets the value, and nothing but the calls themselves changes. */
  lemma {:induction false} WarmCache(s: State, ts: seq<Task>, key: Key)
    requires Fresh(s, ts) && key in s.cache
    ensures var s' := Run(s, Reads(ts, key));
            && (forall t | t in ts :: t in s'.tasks && s'.tasks[t] == Done(key, Fetched(s.cache[key])))
            && (forall t | t !in ts :: (t in s'.tasks <==> t in s.tasks) && (t in s.tasks ==> s'.tasks[t] == s.tasks[t]))
            && s' == s.(tasks := s'.tasks)
    decreases |ts|
  {
    if ts != [] {
      var s1, rest := Move(s, ts[0], Done(key, Fetched(s.cache[key]))), ts[1..];
      OneRead(s, ts[0], key);
      RunAppend(s, [Call(ts[0], key), ReadCache(ts[0], true)], Reads(rest, key));
      assert ts == [ts[0]] + rest;
      assert forall i | 0 <= i < |rest| :: rest[i] == ts[i + 1];
      WarmCache(s1, rest, key);
    }
  }

  /** No step of the run evicts the key or stores another value for it. */
  ghost predicate KeepsKey(s: State, steps: seq<Step>, key: Key)
    decreases |steps|
  {
    steps == [] ||
    (&& steps[0] != Evict(key)
     && !(steps[0].StoreCache? && steps[0].task in s.tasks
          && s.tasks[steps[0].task].Storing? && s.tasks[steps[0].task].key == key)
     && KeepsKey(Next(s, steps[0]), steps[1..], key))
  }

  lemma {:induction false} CachedStays(s: State, steps: seq<Step>, key: Key)
    requires KeepsKey(s, steps, key) && key in s.cache
    ensures key in Run(s, steps).cache && Run(s, steps).cache[key] == s.cache[key]
    decreases |steps|
  {
    if steps != [] {
      CacheStep(s, steps[0], key);
      CachedStays(Next(s, steps[0]), steps[1..], key);
    }
  }

  lemma CacheStep(s: State, step: Step, key: Key)
    requires key in s.cache && step != Evict(key)
    requires !(step.StoreCache? && step.task in s.tasks && s.tasks[step.task].Storing? && s.tasks[step.task].key == key)
    ensures key in Next(s, step).cache && Next(s, step).cache[key] == s.cache[key]
  {
  }

  /**
   * Once a leader has stored its value, and until the key is evicted or stored
   * anew, every call that reaches the cache gets that value at once.
   */
  lemma StoredIsServed(s: State, l: Task, steps: seq<Step>, t: Task)
    requires l in s.tasks && s.tasks[l].Storing?
    requires var s1 := Next(s, StoreCache(l, true));
             KeepsKey(s1, steps, s.tasks[l].key) && t !in Run(s1, steps).tasks
    ensures var key, v := s.tasks[l].key, s.tasks[l].value;
            var s2 := Run(Next(s, StoreCache(l, true)), steps);
            Run(s2, [Call(t, key), ReadCache(t, true)]) == Move(s2, t, Done(key, Fetched(v)))
  {
    var s1, key := Next(s, StoreCache(l, true)), s.tasks[l].key;
    CachedStays(s1, steps, key);
    OneRead(Run(s1, steps), t, key);
  }

  // ---- Fetches

  predicate Room(s: State) {
    s.maxInFlight == 0 || |s.inFlight| < s.maxInFlight
  }

  /** A call that misses the cache, passes the guard and looks for a request in flight. */
  lemma Approaches(s: State, t: Task, key: Key)
    requires t !in s.tasks && key !in s.cache && Room(s)
    ensures Run(s, [Call(t, key), ReadCache(t, true), CheckLimit(t)]) == Move(s, t, AtLookup(key))
  {
    RunThree(s, Call(t, key), ReadCache(t, true), CheckLimit(t));
    var s1 := Next(s, Call(t, key));
    assert s1 == Move(s, t, AtCache(key));
    var s2 := Next(s1, ReadCache(t, true));
    assert s2 == Move(s, t, AtGuard(key));
    assert Next(s2, CheckLimit(t)) == Move(s, t, AtLookup(key));
  }

  /** With none in flight it leads, on a channel of its own. */
  lemma LeadsIfAlone(s: State, t: Task, key: Key)
    requires t in s.tasks && s.tasks[t] == AtLookup(key) && key !in s.inFlight
    ensures Run(s, [Lookup(t), TakeEntry(t)]) == Lead(s, t, key)
  {
    RunTwo(s, Lookup(t), TakeEntry(t));
    var s1 := Next(s, Lookup(t));
    assert s1 == Move(s, t, AtEntry(key));
    assert Lead(s1, t, key) == Lead(s, t, key);
  }

  /** With one in flight it waits for the next value on that channel, without a sender of its own. */
  lemma JoinsIfLed(s: State, t: Task, key: Key)
    requires t in s.tasks && s.tasks[t] == AtLookup(key) && key in s.inFlight && s.inFlight[key] < |s.chans|
    ensures Next(s, Lookup(t)) == Move(s, t, Waiting(key, s.inFlight[key], |s.chans[s.inFlight[key]].log|, false))
  {
  }

  /** A call that finds the entry taken after all waits the same way, but with a sender of its own. */
  lemma SlowPathWaits(s: State, t: Task, key: Key)
    requires t in s.tasks && s.tasks[t] == AtEntry(key) && key in s.inFlight && s.inFlight[key] < |s.chans|
    ensures Run(s, [TakeEntry(t), Subscribe(t)])
         == Move(s, t, Waiting(key, s.inFlight[key], |s.chans[s.inFlight[key]].log|, true))
  {
    RunTwo(s, TakeEntry(t), Subscribe(t));
    var s1, pc := Next(s, TakeEntry(t)), Waiting(key, s.inFlight[key], |s.chans[s.inFlight[key]].log|, true);
    assert s1 == Move(s, t, Cloned(key, s.inFlight[key]));
    assert Move(s1, t, pc) == Move(s, t, pc);
  }

  /** A leader whose fetch succeeds stores its value if it reaches the cache, and sends it. */
  lemma LeaderSends(s: State, l: Task, v: Value, reachable: bool)
    requires l in s.tasks && s.tasks[l].Fetching? && s.tasks[l].chan < |s.chans|
    ensures var key, chan := s.tasks[l].key, s.tasks[l].chan;
            Run(s, [FetchOk(l, v), StoreCache(l, reachable), Send(l)])
            == State(s.maxInFlight, if reachable then s.cache[key := v] else s.cache, s.inFlight,
                     s.chans[chan := s.chans[chan].(log := s.chans[chan].log + [v])],
                     s.tasks[l := Removing(key, chan, v)], s.produced + {(key, v)})
  {
    var key, chan := s.tasks[l].key, s.tasks[l].chan;
    var a := Next(s, FetchOk(l, v));
    assert a == s.(tasks := s.tasks[l := Storing(key, chan, v)], produced := s.produced + {(key, v)});
    var b := Next(a, StoreCache(l, reachable));
    assert b == a.(tasks := s.tasks[l := Sending(key, chan, v)], cache := if reachable then s.cache[key := v] else s.cache);
    SendOutcome(b, l);
    assert b.tasks[l := Removing(key, chan, v)] == s.tasks[l := Removing(key, chan, v)];
    RunThree(s, FetchOk(l, v), StoreCache(l, reachable), Send(l));
  }

  lemma SendOutcome(s: State, l: Task)
    requires l in s.tasks && s.tasks[l].Sending? && s.tasks[l].chan < |s.chans|
    ensures var key, chan, v := s.tasks[l].key, s.tasks[l].chan, s.tasks[l].value;
            Next(s, Send(l)) == s.(tasks := s.tasks[l := Removing(key, chan, v)],
                                   chans := s.chans[chan := s.chans[chan].(log := s.chans[chan].log + [v])])
  {
  }

  /** Then it takes its entry out and returns the value. */
  lemma LeaderReturns(s: State, l: Task)
    requires l in s.tasks && s.tasks[l].Removing?
    ensures var key := s.tasks[l].key;
            Next(s, Remove(l)) == s.(tasks := s.tasks[l := Done(key, Fetched(s.tasks[l].value))], inFlight := s.inFlight - {key})
  {
  }

  /** One whose fetch fails leaves the cache alone, sends nothing and returns the error. */
  lemma LeaderFails(s: State, l: Task)
    requires l in s.tasks && s.tasks[l].Fetching? && s.tasks[l].chan < |s.chans|
    ensures var key, chan := s.tasks[l].key, s.tasks[l].chan;
            Run(s, [FetchFails(l), DropSender(l), Remove(l)])
            == s.(inFlight := s.inFlight - {key}, chans := s.chans[chan := s.chans[chan].(failed := true)],
                  tasks := s.tasks[l := Done(key, FetchError)])
  {
    RunThree(s, FetchFails(l), DropSender(l), Remove(l));
    var key, chan := s.tasks[l].key, s.tasks[l].chan;
    var a := Next(s, FetchFails(l));
    assert a.tasks == s.tasks[l := Failing(key, chan)];
    var b := Next(a, DropSender(l));
    assert b.tasks == s.tasks[l := FailRemoving(key, chan)];
    assert Next(b, Remove(l)).tasks == s.tasks[l := Done(key, FetchError)];
  }

  // ---- One fetch for many callers

  /** Calls that come while a leader fetches, one after the other. */
  function Joins(ts: seq<Task>, key: Key): seq<Step> {
    if ts == [] then []
    else ([Call(ts[0], key), ReadCache(ts[0], true), CheckLimit(ts[0])] + [Lookup(ts[0])]) + Joins(ts[1..], key)
  }

  function Receives(ts: seq<Task>): seq<Step> {
    if ts == [] then [] else [Receive(ts[0])] + Receives(ts[1..])
  }

  /** Nothing but tasks among the given ones has changed, and these are all at the given place. */
  ghost predicate AllAt(s: State, s': State, ts: seq<Task>, pc: Pc) {
    && s' == s.(tasks := s'.tasks)
    && (forall t | t in ts :: t in s'.tasks && s'.tasks[t] == pc)
    && (forall t | t !in ts :: (t in s'.tasks <==> t in s.tasks) && (t in s.tasks ==> s'.tasks[t] == s.tasks[t]))
  }

  ghost predicate Distinct(ts: seq<Task>) {
    forall i, j | 0 <= i < j < |ts| :: ts[i] != ts[j]
  }

  lemma OneJoin(s: State, t: Task, key: Key)
    requires t !in s.tasks && key !in s.cache && Room(s) && key in s.inFlight && s.inFlight[key] < |s.chans|
    ensures Run(s, [Call(t, key), ReadCache(t, true), CheckLimit(t)] + [Lookup(t)])
         == Move(s, t, Waiting(key, s.inFlight[key], |s.chans[s.inFlight[key]].log|, false))
  {
    Approaches(s, t, key);
    RunAppend(s, [Call(t, key), ReadCache(t, true), CheckLimit(t)], [Lookup(t)]);
    var s1 := Move(s, t, AtLookup(key));
    JoinsIfLed(s1, t, key);
    RunCons(s1, Lookup(t), []);
    assert [Lookup(t)] + [] == [Lookup(t)];
    var pc := Waiting(key, s.inFlight[key], |s.chans[s.inFlight[key]].log|, false);
    assert Move(s1, t, pc) == Move(s, t, pc);
  }

  lemma {:induction false} AllJoin(s: State, ts: seq<Task>, key: Key)
    requires Fresh(s, ts) && key !in s.cache && Room(s) && key in s.inFlight && s.inFlight[key] < |s.chans|
    ensures AllAt(s, Run(s, Joins(ts, key)), ts, Waiting(key, s.inFlight[key], |s.chans[s.inFlight[key]].log|, false))
    decreases |ts|
  {
    if ts != [] {
      var pc := Waiting(key, s.inFlight[key], |s.chans[s.inFlight[key]].log|, false);
      var s1, rest := Move(s, ts[0], pc), ts[1..];
      OneJoin(s, ts[0], key);
      RunAppend(s, [Call(ts[0], key), ReadCache(ts[0], true), CheckLimit(ts[0])] + [Lookup(ts[0])], Joins(rest, key));
      assert ts == [ts[0]] + rest;
      assert forall i | 0 <= i < |rest| :: rest[i] == ts[i + 1];
      AllJoin(s1, rest, key);
    }
  }

  lemma {:induction false} AllReceive(s: State, ts: seq<Task>, key: Key, chan: nat, v: Value)
    requires Distinct(ts) && chan < |s.chans| && s.chans[chan].log == [v]
    requires forall t | t in ts :: t in s.tasks && s.tasks[t] == Waiting(key, chan, 0, false)
    ensures AllAt(s, Run(s, Receives(ts)), ts, Received(key, chan, 0, Fetched(v)))
    decreases |ts|
  {
    if ts != [] {
      var s1, rest := Next(s, Receive(ts[0])), ts[1..];
      assert ts == [ts[0]] + rest;
      assert s1 == Move(s, ts[0], Received(key, chan, 0, Fetched(v)));
      RunCons(s, Receive(ts[0]), Receives(rest));
      assert forall i | 0 <= i < |rest| :: rest[i] == ts[i + 1];
      AllReceive(s1, rest, key, chan, v);
    }
  }

  /** The run in which calls join a leader, its fetch succeeds, and they receive. */
  function Shared(l: Task, ts: seq<Task>, key: Key, v: Value): seq<Step> {
    Joins(ts, key) + ([FetchOk(l, v), StoreCache(l, true), Send(l)] + Receives(ts))
  }

  lemma SharedSplits(s: State, l: Task, ts: seq<Task>, key: Key, v: Value)
    ensures var s1 := Run(s, Joins(ts, key));
            Run(s, Shared(l, ts, key, v)) == Run(Run(s1, [FetchOk(l, v), StoreCache(l, true), Send(l)]), Receives(ts))
  {
    RunAppend(s, Joins(ts, key), [FetchOk(l, v), StoreCache(l, true), Send(l)] + Receives(ts));
    RunAppend(Run(s, Joins(ts, key)), [FetchOk(l, v), StoreCache(l, true), Send(l)], Receives(ts));
  }

  /** After the joins: the leader sends, and all who joined receive. */
  lemma SendServesAll(s: State, l: Task, ts: seq<Task>, key: Key, chan: nat, v: Value)
    requires l in s.tasks && s.tasks[l] == Fetching(key, chan) && chan < |s.chans| && s.chans[chan].log == []
    requires Distinct(ts) && forall t | t in ts :: t in s.tasks && s.tasks[t] == Waiting(key, chan, 0, false)
    ensures var s' := Run(Run(s, [FetchOk(l, v), StoreCache(l, true), Send(l)]), Receives(ts));
            && (forall t | t in ts :: t in s'.tasks && s'.tasks[t] == Received(key, chan, 0, Fetched(v)))
            && l in s'.tasks && s'.tasks[l] == Removing(key, chan, v)
            && |s'.chans| == |s.chans| && s'.cache == s.cache[key := v]
  {
    assert l !in ts;
    LeaderSends(s, l, v, true);
    AllReceive(Run(s, [FetchOk(l, v), StoreCache(l, true), Send(l)]), ts, key, chan, v);
  }

  /**
   * However many calls for a key come while its leader fetches, they all get the
   * value of that one fetch, and no channel is made for them.
   */
  lemma OneFetchServesAll(s: State, l: Task, ts: seq<Task>, key: Key, chan: nat, v: Value)
    requires l in s.tasks && s.tasks[l] == Fetching(key, chan) && chan < |s.chans| && s.chans[chan].log == []
    requires key in s.inFlight && s.inFlight[key] == chan && key !in s.cache && Room(s) && Fresh(s, ts)
    ensures var s' := Run(s, Shared(l, ts, key, v));
            && (forall t | t in ts :: t in s'.tasks && s'.tasks[t] == Received(key, chan, 0, Fetched(v)))
            && l in s'.tasks && s'.tasks[l] == Removing(key, chan, v)
            && |s'.chans| == |s.chans| && s'.cache == s.cache[key := v]
  {
    var s1 := Run(s, Joins(ts, key));
    AllJoin(s, ts, key);
    assert l !in ts;
    SharedSplits(s, l, ts, key, v);
    SendServesAll(s1, l, ts, key, chan, v);
  }
}
