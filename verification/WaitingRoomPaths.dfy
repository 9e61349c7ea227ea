/** The life of one goroutine: which actions it takes, in which order, whatever the others do meanwhile. */
module WaitingRoomPaths {
  import opened WaitingRoomProtocol
  import opened WaitingRoomInvariant
  import opened WaitingRoomRuns

  /** The actions of goroutine g, in order. */
  function TraceOf(acts: seq<Action>, g: nat): seq<Action>
  {
    if acts == [] then []
    else
      var n := |acts| - 1;
      TraceOf(acts[..n], g) + if !acts[n].Arrive? && acts[n].g == g then [acts[n]] else []
  }

  // ---- The paths of the decision tree ----

  /** Over the limit: undo the increment, and try to queue. */
  function Queueing(g: nat): seq<Action>
  {
    [Increment(g), Undo(g), CountIn(g), TryEnqueue(g)]
  }

  /** Queued, signalled, and asked whether the client is still there. */
  function Woken(g: nat, disconnected: bool): seq<Action>
  {
    Queueing(g) + [Receive(g), CountOut(g), CheckContext(g, disconnected)]
  }

  /** The two ways into the backend. */
  function Admission(g: nat, direct: bool): seq<Action>
  {
    if direct then [Increment(g)] else Woken(g, false) + [Claim(g)]
  }

  /** All ways to a call of signalNext: a served request, a drainer that took a late signal, a spawned forwarder. */
  ghost predicate ReachesSignalNext(g: nat, path: seq<Action>)
  {
    || (exists direct: bool :: path == Admission(g, direct) + [Release(g)])
    || path == [DrainReceive(g), DrainCountOut(g)]
    || path == []
  }

  /** A whole life. Only those that call signalNext differ in whether a ticket was there to be signalled. */
  ghost predicate Life(g: nat, path: seq<Action>)
  {
    || path == Queueing(g) + [Reject(g)]
    || path == Woken(g, true) + [SpawnForwarder(g)]
    || path == Queueing(g) + [GiveUp(g), SpawnDrainer(g)]
    || path == [Expire(g), ExpireCountOut(g)]
    || (exists before :: ReachesSignalNext(g, before) && path == before + [Dequeue(g)])
    || (exists before :: ReachesSignalNext(g, before) && path == before + [Dequeue(g), Send(g)])
  }

  /** The path of a goroutine that is at p. */
  ghost predicate PathTo(p: Pc, g: nat, path: seq<Action>)
  {
    match p
    case Arriving => path == []
    case Undoing => path == Queueing(g)[..1]
    case OverLimit => path == Queueing(g)[..2]
    case Counted(_) => path == Queueing(g)[..3]
    case Rejecting => path == Queueing(g)
    case Parked(_) => path == Queueing(g)
    case Received => path == Queueing(g) + [Receive(g)]
    case Checking => path == Queueing(g) + [Receive(g), CountOut(g)]
    case Forwarding => path == Woken(g, true)
    case Claiming => path == Woken(g, false)
    case Abandoning(_) => path == Queueing(g) + [GiveUp(g)]
    case Running(direct) => path == Admission(g, direct)
    case Dequeuing => ReachesSignalNext(g, path)
    case Sending(_) => exists before :: ReachesSignalNext(g, before) && path == before + [Dequeue(g)]
    case Draining(_) => path == []
    case Drained => path == [DrainReceive(g)]
    case Expired => path == [Expire(g)]
    case Done => Life(g, path)
  }

  predicate InSignalNext(a: Action) { a.Dequeue? || a.Send? }

  lemma StepOfSignalNext(s: State, a: Action, g: nat, path: seq<Action>)
    requires Enabled(s, a) && InSignalNext(a) && a.g == g && PathTo(s.gs[g], g, path)
    ensures g < |Next(s, a).gs| && PathTo(Next(s, a).gs[g], g, path + [a])
  {
    hide ReachesSignalNext;
    if a.Send? {
      var before :| ReachesSignalNext(g, before) && path == before + [Dequeue(g)];
      assert path + [a] == before + [Dequeue(g), Send(g)];
    }
  }

  lemma StepExtendsPath(s: State, a: Action, g: nat, path: seq<Action>)
    requires Enabled(s, a) && !a.Arrive? && a.g == g && PathTo(s.gs[g], g, path)
    ensures g < |Next(s, a).gs| && PathTo(Next(s, a).gs[g], g, path + [a])
  {
    if InSignalNext(a) {
      StepOfSignalNext(s, a, g, path);
    }
  }

  /** Nobody moves another goroutine; a new one is at the start of a path. */
  lemma StepOfOthers(s: State, a: Action, g: nat)
    requires Enabled(s, a) && (a.Arrive? || a.g != g)
    ensures g < |s.gs| ==> g < |Next(s, a).gs| && Next(s, a).gs[g] == s.gs[g]
    ensures |s.gs| <= g < |Next(s, a).gs| ==> PathTo(Next(s, a).gs[g], g, [])
  {
  }

  lemma {:induction false} PathsAreFollowed(cfg: Config, states: seq<State>, acts: seq<Action>, g: nat)
    requires IsRun(cfg, states, acts)
    ensures var s := states[|acts|];
      if g < |s.gs| then PathTo(s.gs[g], g, TraceOf(acts, g)) else TraceOf(acts, g) == []
  {
    hide PathTo, Next;
    if acts != [] {
      var n := |acts| - 1;
      var s, a := states[n], acts[n];
      PathsAreFollowed(cfg, states[..n + 1], acts[..n], g);
      if !a.Arrive? && a.g == g {
        StepExtendsPath(s, a, g, TraceOf(acts[..n], g));
      } else {
        StepOfOthers(s, a, g);
        assert TraceOf(acts, g) == TraceOf(acts[..n], g);
      }
    }
  }

  /**
    Every goroutine that has finished has lived one of the lives of the decision tree, in whatever order the actions
    of the others came between.
   */
  lemma EveryLifeIsOnThePaths(cfg: Config, states: seq<State>, acts: seq<Action>, g: nat)
    requires IsRun(cfg, states, acts) && g < |states[|acts|].gs| && states[|acts|].gs[g].Done?
    ensures Life(g, TraceOf(acts, g))
  {
    PathsAreFollowed(cfg, states, acts, g);
  }

  /**
    A goroutine runs in the backend only if its increment was within the limit, or if it was signalled in the queue and
    then found its client still there.
   */
  lemma AdmittedInTwoWays(cfg: Config, states: seq<State>, acts: seq<Action>, g: nat)
    requires IsRun(cfg, states, acts) && g < |states[|acts|].gs| && states[|acts|].gs[g].Running?
    ensures TraceOf(acts, g) == [Increment(g)]
         || TraceOf(acts, g) == [Increment(g), Undo(g), CountIn(g), TryEnqueue(g), Receive(g), CountOut(g),
                                 CheckContext(g, false), Claim(g)]
  {
    PathsAreFollowed(cfg, states, acts, g);
  }

  // ---- Who is turned away ----

  /** g is turned away, or has been. */
  predicate TurnedAway(s: State, acts: seq<Action>, g: nat)
  {
    (g < |s.gs| && s.gs[g].Rejecting?) || Reject(g) in acts
  }

  /** Its attempt to queue was step i, and no place was left. */
  ghost predicate FoundFull(states: seq<State>, acts: seq<Action>, i: nat, g: nat)
  {
    i < |acts| && i < |states| && acts[i] == TryEnqueue(g) && |states[i].queue| == states[i].cfg.queueSize
  }

  lemma {:induction false} InTrace(acts: seq<Action>, g: nat)
    ensures Reject(g) in acts ==> Reject(g) in TraceOf(acts, g)
  {
    if acts != [] {
      var n := |acts| - 1;
      InTrace(acts[..n], g);
      assert acts == acts[..n] + [acts[n]];
    }
  }

  lemma NotTurnedAwayYet(s: State, acts: seq<Action>, g: nat)
    requires g < |s.gs| && s.gs[g].Counted? && PathTo(s.gs[g], g, TraceOf(acts, g))
    ensures !TurnedAway(s, acts, g)
  {
    InTrace(acts, g);
  }

  lemma TurnedAwayStep(s: State, acts: seq<Action>, a: Action, g: nat)
    requires Enabled(s, a) && |s.queue| <= s.cfg.queueSize
    requires g < |s.gs| ==> PathTo(s.gs[g], g, TraceOf(acts, g))
    ensures TurnedAway(Next(s, a), acts + [a], g)
       <==> TurnedAway(s, acts, g) || (a == TryEnqueue(g) && |s.queue| == s.cfg.queueSize)
  {
    hide PathTo;
    if a == TryEnqueue(g) {
      NotTurnedAwayYet(s, acts, g);
    }
  }

  /**
    A request is turned away if and only if the queue was full when it tried to enter it; nothing that happened between
    its increment and its attempt to queue, or later, makes a difference.
   */
  lemma {:induction false} TurnedAwayIff(cfg: Config, states: seq<State>, acts: seq<Action>, g: nat)
    requires IsRun(cfg, states, acts)
    ensures TurnedAway(states[|acts|], acts, g) <==> exists i: nat :: FoundFull(states, acts, i, g)
  {
    hide PathTo, Next, TurnedAway, Inv;
    if acts == [] {
      NobodyYet(cfg, g);
    } else {
      var n := |acts| - 1;
      var before, most := states[..n + 1], acts[..n];
      TurnedAwayIff(cfg, before, most, g);
      PathsAreFollowed(cfg, before, most, g);
      RunKeepsInv(cfg, states, acts, n);
      QueueAccounting(cfg, states, acts, n);
      TurnedAwayStep(states[n], most, acts[n], g);
      assert acts == most + [acts[n]];
      FoundFullLater(states, acts, before, most, g);
    }
  }

  lemma FoundFullLater(states: seq<State>, acts: seq<Action>, before: seq<State>, most: seq<Action>, g: nat)
    requires |states| == |acts| + 1 && acts != []
    requires before == states[..|acts|] && most == acts[..|acts| - 1]
    ensures (exists i: nat :: FoundFull(states, acts, i, g))
       <==> (exists i: nat :: FoundFull(before, most, i, g)) || FoundFull(states, acts, |acts| - 1, g)
  {
    forall i: nat
      ensures FoundFull(states, acts, i, g) && i != |acts| - 1 <==> FoundFull(before, most, i, g)
    {
    }
    if i: nat :| FoundFull(before, most, i, g) {
      assert FoundFull(states, acts, i, g);
    }
  }

  lemma NobodyYet(cfg: Config, g: nat)
    ensures !TurnedAway(Init(cfg), [], g)
  {
  }
}
