/**
 * Exactly which followers wait for ever: from the very state they are in, no
 * continuation of the run, whatever the other calls do, lets them return.
 */
module CoalescingWaits {
  import opened Coalescing

  /** No value is left on the channel for the call, and its leader will send none. */
  ghost predicate NothingToCome(s: State, t: Task) {
    && t in s.tasks && s.tasks[t].Waiting? && s.tasks[t].chan < |s.chans|
    && var c := s.chans[s.tasks[t].chan];
       && s.tasks[t].from == |c.log| && c.leader in s.tasks
       && !s.tasks[c.leader].Fetching? && !s.tasks[c.leader].Storing? && !s.tasks[c.leader].Sending?
  }

  /** A slow-path follower with a sender of the channel and no value to receive before it lets go. */
  ghost predicate KeepsOpen(s: State, u: Task, chan: nat) {
    && u in s.tasks && chan < |s.chans| && SlowFollower(s.tasks[u], chan)
    && (s.tasks[u].Waiting? ==> s.tasks[u].from == |s.chans[chan].log|)
  }

  ghost predicate Stuck(s: State, t: Task) {
    NothingToCome(s, t) && exists u :: KeepsOpen(s, u, s.tasks[t].chan)
  }

  ghost predicate StillWaits(s: State, steps: seq<Step>, t: Task)
    requires t in s.tasks
  {
    t in Run(s, steps).tasks && Run(s, steps).tasks[t] == s.tasks[t]
  }

  // ---- Stuck for ever

  /** A step of another call leaves a channel with nothing to come as it is. */
  lemma ChannelStays(s: State, t: Task, step: Step)
    requires Inv(s) && NothingToCome(s, t) && !step.Call? && !step.Evict? && step.task in s.tasks
    ensures var chan := s.tasks[t].chan;
            chan < |Next(s, step).chans| && Next(s, step).chans[chan] == s.chans[chan]
  {
    var pc := s.tasks[step.task];
    assert TaskOk(s, step.task, pc);
    assert ChanOk(s, s.tasks[t].chan, s.chans[s.tasks[t].chan]);
    ActIsLocal(s, step);
    if Leading(pc) && pc.chan == s.tasks[t].chan {
      LateLeaderKeepsChannels(s, step);
    }
  }

  lemma LateLeaderKeepsChannels(s: State, step: Step)
    requires !step.Call? && !step.Evict? && step.task in s.tasks
    requires var pc := s.tasks[step.task]; pc.Removing? || pc.Failing? || pc.FailRemoving?
    ensures Next(s, step).chans == s.chans
  {
  }

  lemma LeaderStaysLate(s: State, t: Task, step: Step)
    requires Inv(s) && NothingToCome(s, t) && !step.Call? && !step.Evict? && step.task in s.tasks
    ensures var l, s' := s.chans[s.tasks[t].chan].leader, Next(s, step);
            l in s'.tasks && !s'.tasks[l].Fetching? && !s'.tasks[l].Storing? && !s'.tasks[l].Sending?
  {
    var l := s.chans[s.tasks[t].chan].leader;
    assert ChanOk(s, s.tasks[t].chan, s.chans[s.tasks[t].chan]);
    if step.task != l {
      ActIsLocal(s, step);
    }
  }

  lemma KeeperStays(s: State, u: Task, chan: nat, step: Step)
    requires Inv(s) && KeepsOpen(s, u, chan) && !step.Call? && !step.Evict? && step.task in s.tasks
    requires chan < |Next(s, step).chans| && Next(s, step).chans[chan] == s.chans[chan]
    ensures KeepsOpen(Next(s, step), u, chan)
  {
    if step.task == u {
      assert HoldsSender(s.tasks[u], chan);
    } else {
      ActIsLocal(s, step);
    }
  }

  lemma WaiterStays(s: State, t: Task, u: Task, step: Step)
    requires Inv(s) && NothingToCome(s, t) && KeepsOpen(s, u, s.tasks[t].chan)
    requires !step.Call? && !step.Evict? && step.task in s.tasks
    ensures t in Next(s, step).tasks && Next(s, step).tasks[t] == s.tasks[t]
  {
    assert HoldsSender(s.tasks[u], s.tasks[t].chan);
    if step.task != t {
      ActIsLocal(s, step);
    }
  }

  lemma StuckStays(s: State, t: Task, u: Task, step: Step)
    requires Inv(s) && NothingToCome(s, t) && KeepsOpen(s, u, s.tasks[t].chan)
    ensures NothingToCome(Next(s, step), t) && KeepsOpen(Next(s, step), u, s.tasks[t].chan)
    ensures Next(s, step).tasks[t] == s.tasks[t]
  {
    if !step.Call? && !step.Evict? && step.task in s.tasks {
      ChannelStays(s, t, step);
      LeaderStaysLate(s, t, step);
      KeeperStays(s, u, s.tasks[t].chan, step);
      WaiterStays(s, t, u, step);
    }
  }

  lemma {:induction false} StuckWaits(s: State, t: Task, u: Task, steps: seq<Step>)
    requires Inv(s) && NothingToCome(s, t) && KeepsOpen(s, u, s.tasks[t].chan)
    ensures StillWaits(s, steps, t)
    decreases |steps|
  {
    if steps != [] {
      StuckStays(s, t, u, steps[0]);
      NextKeepsInv(s, steps[0]);
      StuckWaits(Next(s, steps[0]), t, u, steps[1..]);
    }
  }

  // ---- A way out

  ghost function Holders(s: State, chan: nat): set<Task> {
    set u | u in s.tasks && HoldsSender(s.tasks[u], chan)
  }

  /** Once the leader is done every holder is a follower, and without keepers each has a value to receive. */
  lemma HolderCanReceive(s: State, t: Task, u: Task)
    requires Inv(s) && NothingToCome(s, t) && s.tasks[s.chans[s.tasks[t].chan].leader].Done?
    requires u in Holders(s, s.tasks[t].chan) && !KeepsOpen(s, u, s.tasks[t].chan)
    ensures s.tasks[u].Waiting? && s.tasks[u].chan == s.tasks[t].chan && u != t
    ensures Next(s, Receive(u)).tasks[u].Received?
  {
    assert TaskOk(s, u, s.tasks[u]);
  }

  lemma ReceiveIsLocal(s: State, u: Task, pc: Pc)
    requires u in s.tasks && s.tasks[u].Waiting? && Next(s, Receive(u)).tasks[u] == pc && pc.Received?
    ensures Next(s, Receive(u)) == Move(s, u, pc)
  {
  }

  lemma ReceiveShrinks(s: State, t: Task, u: Task)
    requires Inv(s) && NothingToCome(s, t) && s.tasks[s.chans[s.tasks[t].chan].leader].Done?
    requires u in Holders(s, s.tasks[t].chan) && forall v :: !KeepsOpen(s, v, s.tasks[t].chan)
    ensures var s' := Next(s, Receive(u));
            && Inv(s') && NothingToCome(s', t) && s'.tasks[t] == s.tasks[t] && s'.chans == s.chans
            && s'.tasks[s'.chans[s'.tasks[t].chan].leader].Done?
            && Holders(s', s.tasks[t].chan) == Holders(s, s.tasks[t].chan) - {u}
            && forall v :: !KeepsOpen(s', v, s.tasks[t].chan)
  {
    HolderCanReceive(s, t, u);
    var chan, pc := s.tasks[t].chan, Next(s, Receive(u)).tasks[u];
    ReceiveIsLocal(s, u, pc);
    NextKeepsInv(s, Receive(u));
    forall v ensures !KeepsOpen(Move(s, u, pc), v, chan) {
      assert !KeepsOpen(s, v, chan);
    }
  }

  /** When all senders are gone the call returns. */
  lemma UnheldReturns(s: State, t: Task)
    requires Inv(s) && NothingToCome(s, t) && s.tasks[s.chans[s.tasks[t].chan].leader].Done?
    requires Holders(s, s.tasks[t].chan) == {}
    ensures Next(s, Receive(t)).tasks[t].Received?
  {
    var chan := s.tasks[t].chan;
    forall u | u in s.tasks ensures !HoldsSender(s.tasks[u], chan) {
      assert u !in Holders(s, chan);
    }
    forall k | k in s.inFlight ensures s.inFlight[k] != chan {
      assert EntryOk(s, k, s.inFlight[k]);
    }
  }

  lemma {:induction false} DrainedReturns(s: State, t: Task) returns (steps: seq<Step>)
    requires Inv(s) && NothingToCome(s, t) && s.tasks[s.chans[s.tasks[t].chan].leader].Done?
    requires forall v :: !KeepsOpen(s, v, s.tasks[t].chan)
    ensures t in Run(s, steps).tasks && Run(s, steps).tasks[t].Received?
    decreases |Holders(s, s.tasks[t].chan)|
  {
    if u :| u in Holders(s, s.tasks[t].chan) {
      ReceiveShrinks(s, t, u);
      var rest := DrainedReturns(Next(s, Receive(u)), t);
      RunCons(s, Receive(u), rest);
      steps := [Receive(u)] + rest;
    } else {
      UnheldReturns(s, t);
      RunCons(s, Receive(t), []);
      steps := [Receive(t)] + [];
    }
  }

  /** Nothing to come and nobody to keep the channel open. */
  ghost predicate Draining(s: State, t: Task) {
    Inv(s) && NothingToCome(s, t) && forall v :: !KeepsOpen(s, v, s.tasks[t].chan)
  }

  /** What a late leader has left to do. */
  function FinishingStep(l: Task, pc: Pc): Step {
    if pc.Failing? then DropSender(l) else Remove(l)
  }

  lemma LeaderStepKeeps(s: State, t: Task, l: Task)
    requires Draining(s, t) && l == s.chans[s.tasks[t].chan].leader && !s.tasks[l].Done?
    ensures var s' := Next(s, FinishingStep(l, s.tasks[l]));
            && Draining(s', t) && s'.tasks[t] == s.tasks[t] && s'.chans == s.chans
            && (if s.tasks[l].Failing? then s'.tasks[l].FailRemoving? else s'.tasks[l].Done?)
  {
    var step := FinishingStep(l, s.tasks[l]);
    LeaderStepMoves(s, t, l);
    NextKeepsInv(s, step);
    forall v ensures !KeepsOpen(Next(s, step), v, s.tasks[t].chan) {
      assert !KeepsOpen(s, v, s.tasks[t].chan);
    }
  }

  lemma LeaderStepMoves(s: State, t: Task, l: Task)
    requires Inv(s) && NothingToCome(s, t) && l == s.chans[s.tasks[t].chan].leader && !s.tasks[l].Done?
    ensures var s' := Next(s, FinishingStep(l, s.tasks[l]));
            && l != t && l in s'.tasks && s'.tasks == s.tasks[l := s'.tasks[l]] && s'.chans == s.chans
            && (if s.tasks[l].Failing? then s'.tasks[l].FailRemoving? else s'.tasks[l].Done?)
  {
    assert ChanOk(s, s.tasks[t].chan, s.chans[s.tasks[t].chan]);
  }

  /** A late leader finishes, and nothing else moves. */
  lemma {:induction false} LateLeaderReturns(s: State, t: Task) returns (steps: seq<Step>)
    requires Draining(s, t)
    ensures t in Run(s, steps).tasks && Run(s, steps).tasks[t].Received?
    decreases var pc := s.tasks[s.chans[s.tasks[t].chan].leader];
              if pc.Done? then 0 else if pc.Failing? then 2 else 1
  {
    var l := s.chans[s.tasks[t].chan].leader;
    if s.tasks[l].Done? {
      steps := DrainedReturns(s, t);
    } else {
      var step := FinishingStep(l, s.tasks[l]);
      LeaderStepKeeps(s, t, l);
      var rest := LateLeaderReturns(Next(s, step), t);
      RunCons(s, step, rest);
      steps := [step] + rest;
    }
  }

  lemma ValueReturns(s: State, t: Task)
    requires t in s.tasks && s.tasks[t].Waiting? && s.tasks[t].chan < |s.chans|
    requires s.tasks[t].from < |s.chans[s.tasks[t].chan].log|
    ensures t in Run(s, [Receive(t)]).tasks && Run(s, [Receive(t)]).tasks[t].Received?
  {
    RunCons(s, Receive(t), []);
    assert [Receive(t)] + [] == [Receive(t)];
  }

  /** An early leader can still send. */
  lemma EarlyLeaderReturns(s: State, t: Task) returns (steps: seq<Step>)
    requires Inv(s) && t in s.tasks && s.tasks[t].Waiting? && s.tasks[t].chan < |s.chans|
    requires var l := s.chans[s.tasks[t].chan].leader;
             l in s.tasks && (s.tasks[l].Fetching? || s.tasks[l].Storing? || s.tasks[l].Sending?)
    ensures t in Run(s, steps).tasks && Run(s, steps).tasks[t].Received?
    decreases var pc := s.tasks[s.chans[s.tasks[t].chan].leader];
              if pc.Fetching? then 2 else if pc.Storing? then 1 else 0
  {
    var l := s.chans[s.tasks[t].chan].leader;
    var step := SendingStep(l, s.tasks[l]);
    var s' := Next(s, step);
    NextKeepsInv(s, step);
    EarlyStepMoves(s, t, l);
    if step.Send? {
      ValueReturns(s', t);
      RunCons(s, step, [Receive(t)]);
      steps := [step] + [Receive(t)];
    } else {
      var rest := EarlyLeaderReturns(s', t);
      RunCons(s, step, rest);
      steps := [step] + rest;
    }
  }

  /** What an early leader does next if its fetch succeeds. */
  function SendingStep(l: Task, pc: Pc): Step {
    if pc.Fetching? then FetchOk(l, 0) else if pc.Storing? then StoreCache(l, false) else Send(l)
  }

  lemma EarlyStepMoves(s: State, t: Task, l: Task)
    requires Inv(s) && t in s.tasks && s.tasks[t].Waiting? && s.tasks[t].chan < |s.chans|
    requires l == s.chans[s.tasks[t].chan].leader && l in s.tasks
    requires s.tasks[l].Fetching? || s.tasks[l].Storing? || s.tasks[l].Sending?
    ensures var s', chan := Next(s, SendingStep(l, s.tasks[l])), s.tasks[t].chan;
            && t in s'.tasks && s'.tasks[t] == s.tasks[t] && l in s'.tasks
            && chan < |s'.chans| && s'.chans[chan].leader == l
            && (if s.tasks[l].Fetching? then s'.tasks[l].Storing?
                else if s.tasks[l].Storing? then s'.tasks[l].Sending?
                else s.tasks[t].from < |s'.chans[chan].log|)
  {
    assert ChanOk(s, s.tasks[t].chan, s.chans[s.tasks[t].chan]);
    assert TaskOk(s, t, s.tasks[t]);
  }

  lemma FreeReturns(s: State, t: Task) returns (steps: seq<Step>)
    requires Inv(s) && t in s.tasks && s.tasks[t].Waiting? && !Stuck(s, t)
    ensures t in Run(s, steps).tasks && Run(s, steps).tasks[t].Received?
  {
    assert TaskOk(s, t, s.tasks[t]);
    var c := s.chans[s.tasks[t].chan];
    assert ChanOk(s, s.tasks[t].chan, c);
    if s.tasks[t].from < |c.log| {
      ValueReturns(s, t);
      steps := [Receive(t)];
    } else if !NothingToCome(s, t) {
      steps := EarlyLeaderReturns(s, t);
    } else {
      steps := LateLeaderReturns(s, t);
    }
  }

  /**
   * A waiting follower, from either path, stays where it is in every
   * continuation exactly if nothing is to come on its channel and some slow-path
   * follower, itself perhaps, keeps the channel open with nothing to receive.
   */
  lemma WaitsForeverIff(s: State, t: Task)
    requires Inv(s) && t in s.tasks && s.tasks[t].Waiting?
    ensures (forall steps :: StillWaits(s, steps, t)) <==> Stuck(s, t)
  {
    if Stuck(s, t) {
      var u :| KeepsOpen(s, u, s.tasks[t].chan);
      forall steps ensures StillWaits(s, steps, t) {
        StuckWaits(s, t, u, steps);
      }
    } else {
      var steps := FreeReturns(s, t);
      assert !StillWaits(s, steps, t);
    }
  }
}
