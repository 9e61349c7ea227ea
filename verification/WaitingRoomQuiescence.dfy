/** Every run of the waiting room ends: no goroutine ever blocks for good, and nothing is left over. */
module WaitingRoomQuiescence {
  import opened Tally
  import opened WaitingRoomProtocol
  import opened WaitingRoomInvariant
  import opened WaitingRoomRuns

  /** The most steps a goroutine at p can still take, with those of what it spawns. */
  function StepsLeft(p: Pc): nat
  {
    match p
    case Arriving => 11
    case Undoing => 10
    case OverLimit => 9
    case Counted(_) => 8
    case Parked(_) => 7
    case Received => 6
    case Checking => 5
    case Abandoning(_) => 5
    case Claiming => 4
    case Draining(_) => 4
    case Running(_) => 3
    case Forwarding => 3
    case Drained => 3
    case Dequeuing => 2
    case Rejecting => 1
    case Sending(_) => 1
    case Expired => 1
    case Done => 0
  }

  function Arrives(a: Action): nat { Bit(a.Arrive?) }

  lemma StepUsesUp(s: State, a: Action)
    requires Enabled(s, a)
    ensures Sum(Next(s, a).gs, StepsLeft) + 1 <= Sum(s.gs, StepsLeft) + 12 * Arrives(a)
  {
    hide Sum;
    GoroutineSum(s, a, StepsLeft);
  }

  /** A run takes at most 12 steps for every request that arrives in it, spawned goroutines included. */
  lemma {:induction false} RunsAreShort(cfg: Config, states: seq<State>, acts: seq<Action>)
    requires IsRun(cfg, states, acts)
    ensures |acts| + Sum(states[|acts|].gs, StepsLeft) <= 12 * Sum(acts, Arrives)
  {
    if acts != [] {
      var n := |acts| - 1;
      assert IsRun(cfg, states[..n + 1], acts[..n]);
      RunsAreShort(cfg, states[..n + 1], acts[..n]);
      StepUsesUp(states[n], acts[n]);
    }
  }

  /** A step that goroutine g can take now, whatever the others do. */
  function Move(s: State, g: nat): (a: Action)
    requires g < |s.gs| && !s.gs[g].Done?
    ensures !a.Arrive? && a.g == g
  {
    match s.gs[g]
    case Arriving => Increment(g)
    case Undoing => Undo(g)
    case OverLimit => CountIn(g)
    case Counted(_) => TryEnqueue(g)
    case Rejecting => Reject(g)
    case Parked(_) => GiveUp(g)
    case Received => CountOut(g)
    case Checking => CheckContext(g, false)
    case Forwarding => SpawnForwarder(g)
    case Claiming => Claim(g)
    case Abandoning(_) => SpawnDrainer(g)
    case Running(_) => Release(g)
    case Dequeuing => Dequeue(g)
    case Sending(_) => Send(g)
    case Draining(_) => Expire(g)
    case Drained => DrainCountOut(g)
    case Expired => ExpireCountOut(g)
  }

  /** No goroutine waits for another one: each that is not finished can take a step of its own. */
  lemma NeverStuck(s: State, g: nat)
    requires Inv(s) && g < |s.gs| && !s.gs[g].Done?
    ensures Enabled(s, Move(s, g))
  {
    if s.queue != [] {
      assert s.hist.enqueued[|s.hist.dequeued|] == s.queue[0];
    }
  }

  predicate AllDone(s: State) { forall g :: 0 <= g < |s.gs| ==> s.gs[g].Done? }

  lemma AllDoneLeavesNothing(s: State)
    requires Inv(s) && AllDone(s)
    ensures s.activeRequests == 0 && s.queueDepth == 0 && InFlight(s) == 0
    ensures s.hist.releases == s.hist.claims + s.hist.dropped + Lost(s)
  {
    SumOfNone(s.gs, Runs);
    SumOfNone(s.gs, Undoes);
    SumOfNone(s.gs, CountsInQueue);
    SumOfNone(s.gs, Waits);
    SumOfNone(s.gs, Carries);
    SumAtMost(s.tickets, Loaded, Awaited);
  }

  /**
    Quiescence: a run that cannot be continued without a new arrival has finished every goroutine, and leaves
    both counters at 0 and no signal on its way.
   */
  lemma Quiescence(cfg: Config, states: seq<State>, acts: seq<Action>)
    requires IsRun(cfg, states, acts)
    requires forall a: Action :: Enabled(states[|acts|], a) ==> a.Arrive?
    ensures var s := states[|acts|];
      AllDone(s) && s.activeRequests == 0 && s.queueDepth == 0 && InFlight(s) == 0
  {
    var s := states[|acts|];
    RunKeepsInv(cfg, states, acts, |acts|);
    forall g | 0 <= g < |s.gs|
      ensures s.gs[g].Done?
    {
      if !s.gs[g].Done? {
        NeverStuck(s, g);
      }
    }
    AllDoneLeavesNothing(s);
  }

  /** Every run can be completed: some continuation without arrivals finishes every goroutine. */
  lemma {:induction false} CanFinish(cfg: Config, states: seq<State>, acts: seq<Action>)
    returns (states': seq<State>, acts': seq<Action>)
    requires IsRun(cfg, states, acts)
    ensures IsRun(cfg, states', acts') && acts <= acts' && states <= states'
    ensures Sum(acts', Arrives) == Sum(acts, Arrives)
    ensures AllDone(states'[|acts'|]) && states'[|acts'|].activeRequests == 0 && states'[|acts'|].queueDepth == 0
    decreases Sum(states[|acts|].gs, StepsLeft)
  {
    var s := states[|acts|];
    RunKeepsInv(cfg, states, acts, |acts|);
    if AllDone(s) {
      AllDoneLeavesNothing(s);
      return states, acts;
    }
    var g: nat :| g < |s.gs| && !s.gs[g].Done?;
    var a := Move(s, g);
    NeverStuck(s, g);
    StepUsesUp(s, a);
    SumAppend(acts, a, Arrives);
    states', acts' := CanFinish(cfg, states + [Next(s, a)], acts + [a]);
  }
}
