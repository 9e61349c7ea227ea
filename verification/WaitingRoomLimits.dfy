/**
  What the waiting room does not guarantee, by constructed runs: there is no fixed bound on the overshoot, a waiter can
  be stranded in two ways, and signals can overtake each other. The bounds of WaitingRoomRuns are therefore the best
  possible ones.
 */
module WaitingRoomLimits {
  import opened Tally
  import opened WaitingRoomProtocol
  import opened WaitingRoomInvariant
  import opened WaitingRoomRuns

  /** A run that ends in s and admits directly only while at most k signals are in flight. */
  ghost predicate RunTo(cfg: Config, states: seq<State>, acts: seq<Action>, s: State, k: nat)
  {
    && IsRun(cfg, states, acts)
    && states[|acts|] == s
    && (forall j :: 0 <= j < |acts| && Admits(states[j], acts[j]) ==> InFlight(states[j]) <= k)
  }

  ghost predicate Reachable(cfg: Config, s: State, k: nat)
  {
    exists states, acts :: RunTo(cfg, states, acts, s, k)
  }

  lemma Start(cfg: Config, k: nat)
    ensures Reachable(cfg, Init(cfg), k)
  {
    assert RunTo(cfg, [Init(cfg)], [], Init(cfg), k);
  }

  lemma Take(cfg: Config, s: State, a: Action, k: nat) returns (r: State)
    requires Reachable(cfg, s, k) && Enabled(s, a) && (Admits(s, a) ==> InFlight(s) <= k)
    ensures r == Next(s, a) && Reachable(cfg, r, k)
  {
    hide Sum;
    r := Next(s, a);
    var states, acts :| RunTo(cfg, states, acts, s, k);
    assert RunTo(cfg, states + [r], acts + [a], r, k);
  }

  lemma BusyOfStep(cfg: Config, s: State, a: Action, k: nat)
    requires Reachable(cfg, s, k) && Enabled(s, a)
    ensures Busy(Next(s, a)) + Bit(Drops(s, a)) + Swallows(s, a) == Busy(s) + Bit(Admits(s, a))
  {
    hide Busy, Inv;
    var states, acts :| RunTo(cfg, states, acts, s, k);
    BusyStepOfRun(cfg, states + [Next(s, a)], acts + [a], |acts|);
  }

  /** A step that does not admit anybody, and what it does to the slots in use and on their way. */
  lemma TakeCounting(cfg: Config, s: State, a: Action, k: nat) returns (r: State)
    requires Reachable(cfg, s, k) && Enabled(s, a) && !a.Increment?
    ensures r == Next(s, a) && Reachable(cfg, r, k)
    ensures Busy(r) + Bit(Drops(s, a)) + Swallows(s, a) == Busy(s)
  {
    hide Busy, Next, Swallows, Reachable;
    BusyOfStep(cfg, s, a, k);
    r := Take(cfg, s, a, k);
  }

  /** Any step, if it does not matter how many signals are in flight. */
  lemma TakeAnyway(cfg: Config, s: State, a: Action, k: nat) returns (r: State, m: nat)
    requires Reachable(cfg, s, k) && Enabled(s, a)
    ensures r == Next(s, a) && Reachable(cfg, r, m)
  {
    hide Sum, Next;
    m := k + InFlight(s);
    var states, acts :| RunTo(cfg, states, acts, s, k);
    assert RunTo(cfg, states, acts, s, m);
    r := Take(cfg, s, a, m);
  }

  lemma Witness(cfg: Config, s: State, k: nat) returns (states: seq<State>, acts: seq<Action>)
    requires Reachable(cfg, s, k)
    ensures RunTo(cfg, states, acts, s, k)
  {
    states, acts :| RunTo(cfg, states, acts, s, k);
  }

  function Claims(p: Pc): nat { Bit(p.Claiming?) }

  /** m requests in the backend, c admitted waiters about to claim a slot, and nothing else going on. */
  ghost predicate Calm(s: State, m: nat, c: nat)
  {
    && s.queue == [] && s.activeRequests == m == InBackend(s)
    && Sum(s.gs, Claims) == Sum(s.gs, Carries) == c && Sum(s.tickets, Loaded) == 0
  }

  lemma AdmitOne(cfg: Config, s: State, m: nat, c: nat, k: nat) returns (r: State)
    requires Reachable(cfg, s, k) && Calm(s, m, c) && m < cfg.maxConcurrent && c <= k && s.cfg == cfg
    ensures Reachable(cfg, r, k) && Calm(r, m + 1, c) && r.cfg == cfg
    ensures r.hist == s.hist && r.tickets == s.tickets
  {
    var g := |s.gs|;
    var s1 := Take(cfg, s, Arrive, k);
    SumAppend(s.gs, Arriving, Carries);
    r := Take(cfg, s1, Increment(g), k);
    assert r.gs == s.gs + [Running(true)];
    SumAppend(s.gs, Running(true), Runs);
    SumAppend(s.gs, Running(true), Claims);
    SumAppend(s.gs, Running(true), Carries);
  }

  lemma {:induction false} FillBackend(cfg: Config, m: nat, k: nat) returns (s: State)
    requires m <= cfg.maxConcurrent
    ensures Reachable(cfg, s, k) && Calm(s, m, 0) && s.cfg == cfg
    ensures s.hist == Init(cfg).hist && s.tickets == []
  {
    if m == 0 {
      Start(cfg, k);
      s := Init(cfg);
    } else {
      s := FillBackend(cfg, m - 1, k);
      s := AdmitOne(cfg, s, m - 1, 0, k);
    }
  }

  /** A request that arrives at a full backend, up to the point where it has undone its increment. */
  lemma FindFull(cfg: Config, s: State, k: nat) returns (r: State)
    requires Reachable(cfg, s, k) && s.cfg == cfg && s.activeRequests >= cfg.maxConcurrent
    ensures Reachable(cfg, r, k) && r == s.(gs := s.gs + [OverLimit])
  {
    hide Sum;
    var g := |s.gs|;
    r := Take(cfg, s, Arrive, k);
    r := Take(cfg, r, Increment(g), k);
    r := Take(cfg, r, Undo(g), k);
    assert r.gs == s.gs + [OverLimit];
  }

  /** The rest of its way into the queue. */
  lemma EnterQueue(cfg: Config, s: State, g: nat, k: nat) returns (r: State)
    requires Reachable(cfg, s, k) && s.cfg == cfg && |s.queue| < cfg.queueSize
    requires g < |s.gs| && s.gs[g].OverLimit?
    ensures Reachable(cfg, r, k)
    ensures r == s.(gs := s.gs[g := Parked(|s.tickets|)], queue := s.queue + [|s.tickets|],
                    queueDepth := s.queueDepth + 1, tickets := s.tickets + [Ticket(0, Queued, ReadBy(g))],
                    hist := s.hist.(enqueued := s.hist.enqueued + [|s.tickets|]))
  {
    hide Sum;
    var t := |s.tickets|;
    r := Take(cfg, s, CountIn(g), k);
    r := Take(cfg, r, TryEnqueue(g), k);
    assert r.gs == s.gs[g := Parked(t)];
    assert r.tickets == s.tickets + [Ticket(0, Queued, ReadBy(g))];
  }

  /** A request that finds the backend full ends up parked in the queue. */
  lemma Park(cfg: Config, s: State, k: nat) returns (r: State)
    requires Reachable(cfg, s, k) && s.cfg == cfg && |s.queue| < cfg.queueSize
    requires s.activeRequests >= cfg.maxConcurrent
    ensures Reachable(cfg, r, k)
    ensures r == s.(gs := s.gs + [Parked(|s.tickets|)], queue := s.queue + [|s.tickets|],
                    queueDepth := s.queueDepth + 1, tickets := s.tickets + [Ticket(0, Queued, ReadBy(|s.gs|))],
                    hist := s.hist.(enqueued := s.hist.enqueued + [|s.tickets|]))
  {
    hide Sum;
    r := FindFull(cfg, s, k);
    r := EnterQueue(cfg, r, |s.gs|, k);
    assert r.gs == s.gs + [Parked(|s.tickets|)];
  }

  /** Goroutine d finishes its request and hands its slot to the ticket of the last goroutine. */
  lemma HandOver(cfg: Config, s: State, d: nat, k: nat) returns (r: State)
    requires Reachable(cfg, s, k) && d < |s.gs| - 1 && s.gs[d].Running? && s.tickets != []
    requires s.queue == [|s.tickets| - 1] && s.tickets[|s.tickets| - 1] == Ticket(0, Queued, ReadBy(|s.gs| - 1))
    ensures Reachable(cfg, r, k)
    ensures r.gs == s.gs[d := Done] && r.queue == [] && r.activeRequests == s.activeRequests - 1
    ensures r.tickets == s.tickets[|s.tickets| - 1 := Ticket(1, Signalled, ReadBy(|s.gs| - 1))]
    ensures r.cfg == s.cfg && r.hist.expiries == s.hist.expiries
  {
    hide Sum;
    r := Take(cfg, s, Release(d), k);
    r := Take(cfg, r, Dequeue(d), k);
    r := Take(cfg, r, Send(d), k);
  }

  /** The parked goroutine g takes its signal and gets as far as claiming a slot. */
  lemma Wake(cfg: Config, s: State, g: nat, t: nat, k: nat) returns (r: State)
    requires Reachable(cfg, s, k) && g < |s.gs| && s.gs[g] == Parked(t)
    requires t < |s.tickets| && s.tickets[t] == Ticket(1, Signalled, ReadBy(g))
    ensures Reachable(cfg, r, k)
    ensures r.gs == s.gs[g := Claiming] && r.queue == s.queue && r.activeRequests == s.activeRequests
    ensures r.tickets == s.tickets[t := Ticket(0, Signalled, Unread)]
    ensures r.cfg == s.cfg && r.hist.expiries == s.hist.expiries
  {
    hide Sum;
    r := Take(cfg, s, Receive(g), k);
    r := Take(cfg, r, CountOut(g), k);
    r := Take(cfg, r, CheckContext(g, false), k);
  }

  lemma SlotHandedOver(s: State, d: nat, r: State, m: nat, c: nat)
    requires d < |s.gs| && s.gs[d].Running? && Calm(s, m + 1, c)
    requires r.gs == s.gs[d := Done] + [Claiming] && r.activeRequests == m
    requires r.tickets == s.tickets + [Ticket(0, Signalled, Unread)] && r.queue == []
    ensures Calm(r, m, c + 1)
  {
    hide Sum;
    SumUpdate(s.gs, d, Done, Runs);
    SumUpdate(s.gs, d, Done, Claims);
    SumUpdate(s.gs, d, Done, Carries);
    SumAppend(s.gs[d := Done], Claiming, Runs);
    SumAppend(s.gs[d := Done], Claiming, Claims);
    SumAppend(s.gs[d := Done], Claiming, Carries);
    SumAppend(s.tickets, Ticket(0, Signalled, Unread), Loaded);
  }

  /** One round of barging: a waiter is about to claim a slot that a direct arrival has taken meanwhile. */
  lemma Barge(cfg: Config, s: State, c: nat, k: nat) returns (r: State)
    requires Reachable(cfg, s, k) && s.cfg == cfg && cfg.maxConcurrent > 0 && cfg.queueSize > 0
    requires Calm(s, cfg.maxConcurrent, c) && c < k
    ensures Reachable(cfg, r, k) && r.cfg == cfg && Calm(r, cfg.maxConcurrent, c + 1)
    ensures r.hist.expiries == s.hist.expiries
  {
    hide Sum;
    var d := SumHasTerm(s.gs, Runs);
    var g, t := |s.gs|, |s.tickets|;
    var s1 := Park(cfg, s, k);
    var s2 := HandOver(cfg, s1, d, k);
    var s3 := Wake(cfg, s2, g, t, k);
    SlotHandedOver(s, d, s3, cfg.maxConcurrent - 1, c);
    r := AdmitOne(cfg, s3, cfg.maxConcurrent - 1, c + 1, k);
  }

  lemma {:induction false} BargeRepeatedly(cfg: Config, c: nat, k: nat) returns (s: State)
    requires cfg.maxConcurrent > 0 && cfg.queueSize > 0 && c <= k
    ensures Reachable(cfg, s, k) && s.cfg == cfg && Calm(s, cfg.maxConcurrent, c) && s.hist.expiries == 0
  {
    if c == 0 {
      s := FillBackend(cfg, cfg.maxConcurrent, k);
    } else {
      s := BargeRepeatedly(cfg, c - 1, k);
      s := Barge(cfg, s, c - 1, k);
    }
  }

  lemma {:induction false} ClaimAll(cfg: Config, s: State, k: nat) returns (r: State)
    requires Reachable(cfg, s, k)
    ensures Reachable(cfg, r, k) && InBackend(r) == InBackend(s) + Sum(s.gs, Claims)
    ensures r.hist.expiries == s.hist.expiries
    decreases Sum(s.gs, Claims)
  {
    if Sum(s.gs, Claims) == 0 {
      r := s;
    } else {
      var g := SumHasTerm(s.gs, Claims);
      r := Take(cfg, s, Claim(g), k);
      SumUpdate(s.gs, g, Running(false), Claims);
      SumUpdate(s.gs, g, Running(false), Runs);
      r := ClaimAll(cfg, r, k);
    }
  }

  /**
    No bound on the overshoot, in particular none by the number of processors: whatever the limits, some run puts
    maxConcurrent + k requests into the backend for any k, with no safety timeout and never more than k signals in
    flight at a direct admission. OvershootBound is met with equality.
   */
  lemma OvershootIsUnbounded(cfg: Config, k: nat) returns (states: seq<State>, acts: seq<Action>)
    requires cfg.maxConcurrent > 0 && cfg.queueSize > 0
    ensures IsRun(cfg, states, acts)
    ensures forall j :: 0 <= j < |acts| && Admits(states[j], acts[j]) ==> InFlight(states[j]) <= k
    ensures InBackend(states[|acts|]) == cfg.maxConcurrent + k
    ensures states[|acts|].hist.expiries == 0
  {
    var s := BargeRepeatedly(cfg, k, k);
    var r := ClaimAll(cfg, s, k);
    states, acts := Witness(cfg, r, k);
  }

  /** With an empty queue, a running request finishes and finds nobody to signal. */
  lemma FinishOne(cfg: Config, s: State, g: nat, k: nat) returns (r: State)
    requires Reachable(cfg, s, k) && s.queue == [] && g < |s.gs| && s.gs[g].Running?
    ensures Reachable(cfg, r, k)
    ensures r == s.(gs := s.gs[g := Done], activeRequests := s.activeRequests - 1, hist := r.hist)
    ensures r.hist.expiries == s.hist.expiries
  {
    hide Sum;
    r := Take(cfg, s, Release(g), k);
    r := Take(cfg, r, Dequeue(g), k);
    assert r.gs == s.gs[g := Done];
  }

  /** All but `left` of the running requests finish while nobody is queued. */
  lemma {:induction false} EmptyBackend(cfg: Config, s: State, left: nat, k: nat) returns (r: State)
    requires Reachable(cfg, s, k) && s.queue == [] && left <= InBackend(s)
    ensures Reachable(cfg, r, k) && InBackend(r) == left && Sum(r.gs, Carries) == Sum(s.gs, Carries)
    ensures r.queue == [] && r.tickets == s.tickets && |r.gs| == |s.gs|
    ensures r.activeRequests == s.activeRequests - InBackend(s) + left
    ensures forall g :: 0 <= g < |s.gs| && !s.gs[g].Running? ==> r.gs[g] == s.gs[g]
    ensures r.cfg == s.cfg && r.hist.expiries == s.hist.expiries
    decreases InBackend(s)
  {
    if InBackend(s) == left {
      r := s;
    } else {
      var g := SumHasTerm(s.gs, Runs);
      hide Sum, Reachable;
      r := FinishOne(cfg, s, g, k);
      SumUpdate(s.gs, g, Done, Runs);
      SumUpdate(s.gs, g, Done, Carries);
      r := EmptyBackend(cfg, r, left, k);
    }
  }

  /**
    A waiter can be stranded, whatever the limits: all running requests finish between the check of one more request
    and its attempt to queue, which leaves that request parked in front of an idle backend.
   */
  lemma StrandingHappens(cfg: Config) returns (states: seq<State>, acts: seq<Action>, g: nat, t: nat)
    requires cfg.queueSize > 0
    ensures IsRun(cfg, states, acts)
    ensures var s := states[|acts|];
      && g < |s.gs| && s.gs[g] == Parked(t) && s.queue == [t]
      && s.activeRequests == 0 && InBackend(s) == 0 && InFlight(s) == 0 && s.hist.expiries == 0
  {
    hide Sum, Reachable;
    var s := FillBackend(cfg, cfg.maxConcurrent, 0);
    g, t := |s.gs|, |s.tickets|;
    var full := FindFull(cfg, s, 0);
    SumAppend(s.gs, OverLimit, Runs);
    SumAppend(s.gs, OverLimit, Carries);
    var idle := EmptyBackend(cfg, full, 0, 0);
    var r := EnterQueue(cfg, idle, g, 0);
    SumUpdate(idle.gs, g, Parked(t), Runs);
    SumUpdate(idle.gs, g, Parked(t), Carries);
    SumAppend(idle.tickets, Ticket(0, Queued, ReadBy(g)), Loaded);
    assert Reachable(cfg, r, 0);
    states, acts := Witness(cfg, r, 0);
  }

  // ---- Swallowed signals and signals that overtake each other ----

  /** A run to s whose i-th action queued ticket t while a slot was in use or on its way. */
  ghost predicate QueuedInTime(cfg: Config, states: seq<State>, acts: seq<Action>, s: State, i: nat, t: nat)
  {
    && IsRun(cfg, states, acts) && states[|acts|] == s
    && i < |acts| && acts[i].TryEnqueue? && states[i + 1].queue == states[i].queue + [t] && Busy(states[i]) > 0
  }

  ghost predicate ReachableWith(cfg: Config, s: State, i: nat, t: nat)
  {
    exists states, acts :: QueuedInTime(cfg, states, acts, s, i, t)
  }

  lemma GoOn(cfg: Config, s: State, a: Action, i: nat, t: nat) returns (r: State)
    requires ReachableWith(cfg, s, i, t) && Enabled(s, a)
    ensures r == Next(s, a) && ReachableWith(cfg, r, i, t)
    ensures Busy(r) + Bit(Drops(s, a)) + Swallows(s, a) == Busy(s) + Bit(Admits(s, a))
  {
    hide Busy, Inv;
    r := Next(s, a);
    var states, acts :| QueuedInTime(cfg, states, acts, s, i, t);
    var states', acts' := states + [r], acts + [a];
    assert QueuedInTime(cfg, states', acts', r, i, t);
    BusyStepOfRun(cfg, states', acts', |acts|);
  }

  /** Request c enters the queue while a slot is in use or on its way. */
  lemma EnterInTime(cfg: Config, s: State, c: nat) returns (r: State, i: nat)
    requires Reachable(cfg, s, 0) && s.cfg == cfg && |s.queue| < cfg.queueSize
    requires c < |s.gs| && s.gs[c].OverLimit? && Busy(s) > 0
    ensures ReachableWith(cfg, r, i, |s.tickets|) && Busy(r) == Busy(s)
    ensures r == s.(gs := s.gs[c := Parked(|s.tickets|)], queue := s.queue + [|s.tickets|],
                    queueDepth := s.queueDepth + 1, tickets := s.tickets + [Ticket(0, Queued, ReadBy(c))],
                    hist := s.hist.(enqueued := s.hist.enqueued + [|s.tickets|]))
  {
    hide Sum, Busy;
    var t := |s.tickets|;
    var u := TakeCounting(cfg, s, CountIn(c), 0);
    BusyOfStep(cfg, u, TryEnqueue(c), 0);
    var states, acts := Witness(cfg, u, 0);
    i := |acts|;
    r := Next(u, TryEnqueue(c));
    assert QueuedInTime(cfg, states + [r], acts + [TryEnqueue(c)], r, i, t);
    assert r.gs == s.gs[c := Parked(t)];
    assert r.tickets == s.tickets + [Ticket(0, Queued, ReadBy(c))];
  }

  /** One request runs and two that were over the limit have not queued yet. */
  lemma OneRunsTwoWait(cfg: Config) returns (s: State, a: nat)
    requires cfg.maxConcurrent > 0
    ensures Reachable(cfg, s, 0) && s.cfg == cfg && s.hist.expiries == 0 && s.queue == [] && s.tickets == []
    ensures s.activeRequests == 1 && Busy(s) == 1
    ensures |s.gs| > 2 && s.gs[|s.gs| - 2].OverLimit? && s.gs[|s.gs| - 1].OverLimit?
    ensures a < |s.gs| && s.gs[a].Running?
  {
    hide Sum, Reachable;
    var full := FillBackend(cfg, cfg.maxConcurrent, 0);
    var one := FindFull(cfg, full, 0);
    var two := FindFull(cfg, one, 0);
    SumAppend(full.gs, OverLimit, Runs);
    SumAppend(full.gs, OverLimit, Carries);
    SumAppend(one.gs, OverLimit, Runs);
    SumAppend(one.gs, OverLimit, Carries);
    s := EmptyBackend(cfg, two, 1, 0);
    SumNone();
    a := SumHasTerm(s.gs, Runs);
    assert s.gs[|s.gs| - 1] == two.gs[|two.gs| - 1] == OverLimit;
    assert s.gs[|s.gs| - 2] == two.gs[|two.gs| - 2] == OverLimit;
  }

  lemma SumNone()
    ensures Sum([], Loaded) == 0
  {
  }

  /** The request in front gives up, and the only running one has taken its ticket from the queue. */
  lemma FrontGivesUp(cfg: Config) returns (r: State, a: nat, c: nat)
    requires cfg.maxConcurrent > 0 && cfg.queueSize > 0
    ensures Reachable(cfg, r, 0) && r.cfg == cfg && r.hist.expiries == 0 && r.queue == [] && Busy(r) == 1
    ensures r.tickets == [Ticket(0, Taken(a), ReadBy(c + 1))] && r.activeRequests == 0
    ensures a < c && |r.gs| == c + 2 && r.gs[a] == Sending(0) && r.gs[c].OverLimit? && r.gs[c + 1] == Draining(0)
  {
    hide Sum, Reachable, Busy;
    r, a := OneRunsTwoWait(cfg);
    c := |r.gs| - 1;
    r := TakeCounting(cfg, r, CountIn(c - 1), 0);
    r := TakeCounting(cfg, r, TryEnqueue(c - 1), 0);
    r := TakeCounting(cfg, r, GiveUp(c - 1), 0);
    r := TakeCounting(cfg, r, SpawnDrainer(c - 1), 0);
    r := TakeCounting(cfg, r, Release(a), 0);
    r := TakeCounting(cfg, r, Dequeue(a), 0);
  }

  /**
    A swallowed signal can strand a waiter that was queued in time: whatever the limits, some run queues a waiter while
    a slot is on its way to another one that has given up. The drainer of that one takes the safety arm before the slot
    arrives, and the waiter stays parked in front of an idle backend.
   */
  lemma SwallowStrands(cfg: Config)
    returns (states: seq<State>, acts: seq<Action>, i: nat, g: nat, t: nat)
    requires cfg.maxConcurrent > 0 && cfg.queueSize > 0
    ensures IsRun(cfg, states, acts)
    ensures i < |acts| && acts[i].TryEnqueue? && states[i + 1].queue == states[i].queue + [t] && Busy(states[i]) > 0
    ensures var s := states[|acts|];
      && g < |s.gs| && s.gs[g] == Parked(t) && s.queue == [t]
      && s.activeRequests == 0 && Busy(s) == 0 && s.hist.expiries == 1
  {
    hide Sum, Reachable, ReachableWith, Busy;
    var r, a, c := FrontGivesUp(cfg);
    r, i := EnterInTime(cfg, r, c);
    g, t := c, 1;
    r := GoOn(cfg, r, Expire(c + 1), i, t);
    r := GoOn(cfg, r, Send(a), i, t);
    states, acts := WitnessWith(cfg, r, i, t);
  }

  lemma WitnessWith(cfg: Config, s: State, i: nat, t: nat) returns (states: seq<State>, acts: seq<Action>)
    requires ReachableWith(cfg, s, i, t)
    ensures QueuedInTime(cfg, states, acts, s, i, t)
  {
    states, acts :| QueuedInTime(cfg, states, acts, s, i, t);
  }

  /** Request a is running, one ticket is queued, and one more request has found the backend full. */
  lemma OneQueuedOneOver(cfg: Config) returns (r: State, a: nat)
    requires cfg.maxConcurrent > 0 && cfg.queueSize > 0
    ensures Reachable(cfg, r, 0) && r.cfg == cfg && r.activeRequests == cfg.maxConcurrent
    ensures a < |r.gs| - 1 && r.gs[a].Running? && r.gs[|r.gs| - 1] == OverLimit
    ensures r.queue == [0] && |r.tickets| == 1 && r.tickets[0].signals == 0
    ensures r.hist.enqueued == [0] && r.hist.dequeued == [] && r.hist.signalled == []
  {
    hide Sum, Reachable;
    var s := FillBackend(cfg, cfg.maxConcurrent, 0);
    a := SumHasTerm(s.gs, Runs);
    r := Park(cfg, s, 0);
    r := FindFull(cfg, r, 0);
  }

  /** Request a has dequeued ticket 0 and not sent on it yet, and ticket 1 has entered the queue. */
  lemma HalfWay(cfg: Config) returns (r: State, a: nat)
    requires cfg.maxConcurrent > 0 && cfg.queueSize > 0
    ensures Reachable(cfg, r, 0) && r.cfg == cfg && r.activeRequests < cfg.maxConcurrent
    ensures a < |r.gs| && r.gs[a] == Sending(0) && r.queue == [1]
    ensures |r.tickets| == 2 && r.tickets[0].signals == r.tickets[1].signals == 0
    ensures r.hist.enqueued == [0, 1] && r.hist.dequeued == [0] && r.hist.signalled == []
  {
    hide Sum, Reachable;
    r, a := OneQueuedOneOver(cfg);
    r := Take(cfg, r, Release(a), 0);
    r := Take(cfg, r, Dequeue(a), 0);
    r := EnterQueue(cfg, r, |r.gs| - 1, 0);
  }

  /**
    Signals can overtake each other, because the dequeue and the send are two steps: whatever the limits, some run
    signals the second ticket before the first. A direct arrival comes and goes between the two steps.
   */
  lemma SignalsOvertake(cfg: Config) returns (states: seq<State>, acts: seq<Action>)
    requires cfg.maxConcurrent > 0 && cfg.queueSize > 0
    ensures IsRun(cfg, states, acts)
    ensures var h := states[|acts|].hist;
      h.enqueued == h.dequeued == [0, 1] && h.signalled == [1, 0]
  {
    hide Sum, Reachable, InFlight;
    var r, a := HalfWay(cfg);
    var n := |r.gs|;
    var k: nat;
    r := Take(cfg, r, Arrive, 0);
    r, k := TakeAnyway(cfg, r, Increment(n), 0);
    r := Take(cfg, r, Release(n), k);
    r := Take(cfg, r, Dequeue(n), k);
    r := Take(cfg, r, Send(n), k);
    r := Take(cfg, r, Send(a), k);
    states, acts := Witness(cfg, r, k);
  }
}
