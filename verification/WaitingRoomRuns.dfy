/** Theorems about whole runs of the waiting room: any number of goroutines, any interleaving. */
module WaitingRoomRuns {
  import opened Tally
  import opened WaitingRoomProtocol
  import opened WaitingRoomInvariant

  /** states[i + 1] is states[i] after acts[i], starting from an idle waiting room. */
  ghost predicate IsRun(cfg: Config, states: seq<State>, acts: seq<Action>)
  {
    && |states| == |acts| + 1
    && states[0] == Init(cfg)
    && forall i :: 0 <= i < |acts| ==> Enabled(states[i], acts[i]) && states[i + 1] == Next(states[i], acts[i])
  }

  lemma {:induction false} RunKeepsInv(cfg: Config, states: seq<State>, acts: seq<Action>, i: nat)
    requires IsRun(cfg, states, acts) && i < |states|
    ensures Inv(states[i]) && states[i].cfg == cfg
  {
    hide Inv;
    if i == 0 {
      InitInv(cfg);
    } else {
      RunKeepsInv(cfg, states, acts, i - 1);
      StepKeepsInv(states[i - 1], acts[i - 1]);
    }
  }

  // ---- Slots and signals ----

  /** Tickets still queued although nobody will read them any more. */
  function Orphaned(t: Ticket): nat { Bit(t.stage.Queued? && t.reader.Unread?) }

  /** Tickets about to be sent a signal that nobody will read. */
  function Doomed(t: Ticket): nat { Bit(t.stage.Taken? && t.reader.Unread?) }

  function Pending(t: Ticket): nat { Orphaned(t) + Doomed(t) }

  /**
    What safety timeouts cost, to the unit: at every moment of every run, each one so far has left one ticket that
    nobody reads, which is still queued, or dequeued and about to be sent to, or holds the signal it has swallowed. So
    a safety timeout swallows at most one signal, and waiters that time out or disconnect swallow none.
   */
  lemma ExpiryAccounting(cfg: Config, states: seq<State>, acts: seq<Action>, i: nat)
    requires IsRun(cfg, states, acts) && i < |states|
    ensures var s := states[i];
      s.hist.expiries == Lost(s) + Sum(s.tickets, Orphaned) + Sum(s.tickets, Doomed)
  {
    var s := states[i];
    RunKeepsInv(cfg, states, acts, i);
    SumOfTwo(s.tickets, Orphaned, Doomed, Pending);
    SumOfTwo(s.tickets, Swallowed, Pending, Forsaken);
  }

  /**
    Slot conservation: at every moment of every run, each slot released so far was claimed by a waiter, dropped
    because nobody was queued, swallowed by a ticket whose drainer hit the safety timeout, or is still in flight. No
    more are swallowed than there were safety timeouts.
   */
  lemma SlotConservation(cfg: Config, states: seq<State>, acts: seq<Action>, i: nat)
    requires IsRun(cfg, states, acts) && i < |states|
    ensures var s := states[i];
      && s.hist.releases == s.hist.claims + s.hist.dropped + Lost(s) + InFlight(s)
      && Lost(s) <= s.hist.expiries
  {
    RunKeepsInv(cfg, states, acts, i);
    ExpiryAccounting(cfg, states, acts, i);
  }

  lemma BusyStepOfRun(cfg: Config, states: seq<State>, acts: seq<Action>, i: nat)
    requires IsRun(cfg, states, acts) && i < |acts|
    ensures var s, a := states[i], acts[i];
      Busy(states[i + 1]) + Bit(Drops(s, a)) + Swallows(s, a) == Busy(s) + Bit(Admits(s, a))
  {
    RunKeepsInv(cfg, states, acts, i);
    StructureOfTouched(states[i], acts[i]);
    BusyStep(states[i], acts[i]);
  }

  /**
    The exact rule of the overshoot, run by run: the slots in use and on their way stay within maxConcurrent + k
    throughout a run if and only if each direct admission of the run finds fewer than that.
   */
  lemma {:induction false} OvershootIff(cfg: Config, states: seq<State>, acts: seq<Action>, i: nat, k: nat)
    requires IsRun(cfg, states, acts) && i < |states|
    ensures (forall j :: 0 <= j <= i ==> Busy(states[j]) <= cfg.maxConcurrent + k)
       <==> (forall j :: 0 <= j < i && Admits(states[j], acts[j]) ==> Busy(states[j]) < cfg.maxConcurrent + k)
  {
    if i > 0 {
      OvershootIff(cfg, states, acts, i - 1, k);
      BusyStepOfRun(cfg, states, acts, i - 1);
    }
    hide Busy, Admits, Swallows, Drops, Next;
  }

  /**
    Overshoot: the backend never holds more than maxConcurrent + k requests, where k bounds the signals in flight
    at the direct admissions of the run. With k = 0: no barging, no overshoot.
   */
  lemma OvershootBound(cfg: Config, states: seq<State>, acts: seq<Action>, i: nat, k: nat)
    requires IsRun(cfg, states, acts) && i < |states|
    requires forall j :: 0 <= j < i && Admits(states[j], acts[j]) ==> InFlight(states[j]) <= k
    ensures InBackend(states[i]) + InFlight(states[i]) <= cfg.maxConcurrent + k
  {
    hide Inv;
    forall j | 0 <= j < i && Admits(states[j], acts[j])
      ensures Busy(states[j]) < cfg.maxConcurrent + k
    {
      ActiveAccounting(cfg, states, acts, j);
      RunKeepsInv(cfg, states, acts, j);
    }
    OvershootIff(cfg, states, acts, i, k);
    assert Busy(states[i]) <= cfg.maxConcurrent + k;
  }

  /** Requests admitted directly between states i and j. */
  function Admissions(states: seq<State>, acts: seq<Action>, i: nat, j: nat): nat
    requires |states| == |acts| + 1 && i <= j < |states|
    decreases j
  {
    if i == j then 0 else Admissions(states, acts, i, j - 1) + Bit(Admits(states[j - 1], acts[j - 1]))
  }

  lemma AccountingOfStep(cfg: Config, states: seq<State>, acts: seq<Action>, i: nat)
    requires IsRun(cfg, states, acts) && i < |acts|
    ensures var s, r := states[i], states[i + 1];
      Busy(r) + (r.hist.dropped - s.hist.dropped) + (Lost(r) - Lost(s)) == Busy(s) + Bit(Admits(s, acts[i]))
  {
    hide Sum, Structure, Lost, Busy, Next, Swallows, Drops;
    BusyStepOfRun(cfg, states, acts, i);
    RunKeepsInv(cfg, states, acts, i);
    StructureOfTouched(states[i], acts[i]);
    LostStep(states[i], acts[i]);
    DroppedStep(states[i], acts[i]);
  }

  lemma DroppedStep(s: State, a: Action)
    requires Enabled(s, a)
    ensures Next(s, a).hist.dropped == s.hist.dropped + Bit(Drops(s, a))
  {
    hide Sum;
  }

  /** Between any two moments, slots come in by direct admissions and go by dropped and swallowed signals alone. */
  lemma {:induction false} BusyAccounting(cfg: Config, states: seq<State>, acts: seq<Action>, i: nat, j: nat)
    requires IsRun(cfg, states, acts) && i <= j < |states|
    ensures var s, r := states[i], states[j];
      Busy(r) + (r.hist.dropped - s.hist.dropped) + (Lost(r) - Lost(s)) == Busy(s) + Admissions(states, acts, i, j)
    decreases j
  {
    hide Busy, Lost, Next, Admits;
    if i < j {
      BusyAccounting(cfg, states, acts, i, j - 1);
      AccountingOfStep(cfg, states, acts, j - 1);
    }
  }

  lemma {:induction false} NoneDropped(cfg: Config, states: seq<State>, acts: seq<Action>, i: nat, j: nat)
    requires IsRun(cfg, states, acts) && i <= j < |states|
    requires forall k :: i <= k < j ==> states[k].queue != []
    ensures states[j].hist.dropped == states[i].hist.dropped
    decreases j
  {
    hide Next, Sum;
    if i < j {
      NoneDropped(cfg, states, acts, i, j - 1);
      DroppedStep(states[j - 1], acts[j - 1]);
    }
  }

  /**
    How many requests overtake a queued waiter: while the queue is not empty, the requests admitted directly are
    exactly the growth of the slots in use and on their way, and the signals swallowed, which are none without a
    safety timeout.
   */
  lemma OvertakingIsGrowth(cfg: Config, states: seq<State>, acts: seq<Action>, i: nat, j: nat)
    requires IsRun(cfg, states, acts) && i <= j < |states|
    requires forall k :: i <= k < j ==> states[k].queue != []
    ensures var swallowed := Lost(states[j]) - Lost(states[i]);
      && Admissions(states, acts, i, j) == Busy(states[j]) - Busy(states[i]) + swallowed
      && (states[j].hist.expiries == 0 ==> swallowed == 0)
  {
    hide Next, Sum, Busy, Lost;
    LogsGrow(cfg, states, acts, i, j);
    SlotConservation(cfg, states, acts, i);
    SlotConservation(cfg, states, acts, j);
    NoneDropped(cfg, states, acts, i, j);
    BusyAccounting(cfg, states, acts, i, j);
  }

  // ---- Counters ----

  /**
    activeRequests is the number of requests in the backend plus those about to undo their increment, so it is never
    negative, and directly admitted requests stay within the limit.
   */
  lemma ActiveAccounting(cfg: Config, states: seq<State>, acts: seq<Action>, i: nat)
    requires IsRun(cfg, states, acts) && i < |states|
    ensures var s := states[i];
      && s.activeRequests == InBackend(s) + Sum(s.gs, Undoes) >= 0
      && Sum(s.gs, RunsDirect) <= cfg.maxConcurrent
  {
    RunKeepsInv(cfg, states, acts, i);
  }

  /**
    Swallowed signals cost no capacity: whether an arriving request is admitted directly depends on the backend and
    on the requests about to undo their increment, and on nothing else.
   */
  lemma AdmittedIffRoom(cfg: Config, states: seq<State>, acts: seq<Action>, i: nat, g: nat)
    requires IsRun(cfg, states, acts) && i < |states| && Enabled(states[i], Increment(g))
    ensures var s := states[i];
      Next(s, Increment(g)).gs[g].Running? <==> InBackend(s) + Sum(s.gs, Undoes) < cfg.maxConcurrent
  {
    RunKeepsInv(cfg, states, acts, i);
  }

  /**
    A request that was over the limit is parked in the queue if and only if fewer tickets have entered than have left
    and fit; it is turned away only from a full queue, however long ago it made its ticket and whoever came between.
   */
  lemma ParkedIffRoom(cfg: Config, states: seq<State>, acts: seq<Action>, i: nat, g: nat)
    requires IsRun(cfg, states, acts) && i < |states| && Enabled(states[i], TryEnqueue(g))
    ensures var s, r := states[i], Next(states[i], TryEnqueue(g));
      var waiting := |s.hist.enqueued| - |s.hist.dequeued|;
      && 0 <= waiting <= cfg.queueSize && g < |r.gs|
      && (waiting < cfg.queueSize <==> r.gs[g] == Parked(s.gs[g].ticket))
      && (waiting < cfg.queueSize ==> r.queue == s.queue + [s.gs[g].ticket])
      && (waiting == cfg.queueSize <==> r.gs[g] == Rejecting)
      && (waiting == cfg.queueSize ==> r.queue == s.queue)
  {
    hide Sum;
    RunKeepsInv(cfg, states, acts, i);
  }

  function QueuedAndAwaited(t: Ticket): nat { Bit(t.stage.Queued? && t.reader.ReadBy?) }

  /**
    queueDepth is the number of goroutines that incremented it and have not undone that. The queue stays within its
    capacity, and queueDepth misses none of its tickets but the orphaned ones, at most one for each safety timeout.
   */
  lemma QueueAccounting(cfg: Config, states: seq<State>, acts: seq<Action>, i: nat)
    requires IsRun(cfg, states, acts) && i < |states|
    ensures var s := states[i];
      && s.queueDepth == Sum(s.gs, CountsInQueue) >= 0
      && |s.queue| <= cfg.queueSize
      && |s.queue| <= s.queueDepth + Sum(s.tickets, Orphaned)
      && Sum(s.tickets, Orphaned) <= s.hist.expiries
  {
    var s := states[i];
    RunKeepsInv(cfg, states, acts, i);
    SumOfTwo(s.tickets, QueuedAndAwaited, Orphaned, InQueue);
    SumAtMost(s.tickets, QueuedAndAwaited, Awaited);
    SumAtMost(s.gs, Waits, CountsInQueue);
    ExpiryAccounting(cfg, states, acts, i);
  }

  // ---- The queue is FIFO and the send on a ticket never blocks ----

  ghost predicate Extends(longer: seq<nat>, shorter: seq<nat>)
  {
    |shorter| <= |longer| && longer[..|shorter|] == shorter
  }

  lemma FifoState(s: State)
    requires QueueIsFifo(s)
    ensures s.hist.enqueued == s.hist.dequeued + s.queue
    ensures Distinct(s.hist.enqueued) && Distinct(s.hist.dequeued) && Distinct(s.hist.signalled)
    ensures forall t :: t in s.hist.signalled ==> t in s.hist.dequeued
  {
    assert s.hist.dequeued == s.hist.enqueued[..|s.hist.dequeued|];
    forall t | t in s.hist.signalled
      ensures t in s.hist.dequeued
    {
      var k :| 0 <= k < |s.hist.enqueued| && s.hist.enqueued[k] == t;
      assert k < |s.hist.dequeued|;
    }
  }

  /** Tickets leave the queue in the order in which they entered it; each enters, leaves and
    * is signalled at most once. */
  lemma FifoOrder(cfg: Config, states: seq<State>, acts: seq<Action>, i: nat)
    requires IsRun(cfg, states, acts) && i < |states|
    ensures var s := states[i];
      && s.hist.enqueued == s.hist.dequeued + s.queue
      && Distinct(s.hist.enqueued) && Distinct(s.hist.dequeued) && Distinct(s.hist.signalled)
      && (forall t :: t in s.hist.signalled ==> t in s.hist.dequeued)
  {
    hide Sum, QueueIsFifo;
    RunKeepsInv(cfg, states, acts, i);
    FifoState(states[i]);
  }

  /** Every ticket that left the queue before t has been signalled. */
  ghost predicate OldestUnsent(s: State, t: nat)
  {
    forall n: nat, m: nat :: n < m < |s.hist.dequeued| && s.hist.dequeued[m] == t ==>
      s.hist.dequeued[n] in s.hist.signalled
  }

  lemma NextInOrder(d: seq<nat>, sent: seq<nat>, m: nat)
    requires Distinct(d) && Extends(d, sent) && |sent| <= m < |d|
    ensures Extends(d, sent + [d[m]]) <==> m == |sent|
    ensures m == |sent| <==> forall n: nat :: n < m ==> d[n] in sent
  {
    assert forall n :: 0 <= n < |sent| ==> sent[n] == d[..|sent|][n] == d[n];
    if m == |sent| {
      assert d[..m + 1] == sent + [d[m]];
    } else {
      assert d[|sent|] !in sent;
      assert d[..|sent| + 1][|sent|] == d[|sent|] != d[m];
      assert (sent + [d[m]])[|sent|] == d[m];
    }
  }

  lemma SendInOrder(s: State, g: nat)
    requires Inv(s) && Enabled(s, Send(g)) && Extends(s.hist.dequeued, s.hist.signalled)
    ensures Extends(s.hist.dequeued, s.hist.signalled + [s.gs[g].ticket]) <==> OldestUnsent(s, s.gs[g].ticket)
  {
    hide Sum;
    FifoState(s);
    var t, d, sent := s.gs[g].ticket, s.hist.dequeued, s.hist.signalled;
    assert s.tickets[t].stage == Taken(g);
    var m: nat :| m < |s.hist.enqueued| && s.hist.enqueued[m] == t;
    assert m < |d| && d[m] == t;
    assert t !in sent;
    assert forall n :: 0 <= n < |sent| ==> sent[n] == d[..|sent|][n] == d[n];
    assert |sent| <= m;
    NextInOrder(d, sent, m);
    assert OldestUnsent(s, t) <==> forall n: nat :: n < m ==> d[n] in sent by {
      hide Inv;
      assert forall k: nat :: k < |d| && d[k] == t ==> k == m;
    }
  }

  /** The signals sent so far went to the tickets that left the queue first, in that order. */
  ghost predicate SignalsInOrder(s: State) { Extends(s.hist.dequeued, s.hist.signalled) }

  /** The step overtakes no other: if it sends a signal, it is to the ticket whose turn it is. */
  ghost predicate KeepsTurn(s: State, a: Action)
    requires Enabled(s, a)
  {
    a.Send? ==> OldestUnsent(s, s.gs[a.g].ticket)
  }

  lemma StepInOrder(s: State, a: Action)
    requires Inv(s) && Enabled(s, a) && SignalsInOrder(s)
    ensures SignalsInOrder(Next(s, a)) <==> KeepsTurn(s, a)
  {
    hide Inv, OldestUnsent;
    if a.Send? {
      SendInOrder(s, a.g);
    }
  }

  /**
    Signals are sent in the order in which the tickets left the queue, at every moment of a run, if and only if each
    send finds all tickets that left before its own one signalled.
   */
  lemma {:induction false} SignalsInOrderIff(cfg: Config, states: seq<State>, acts: seq<Action>, i: nat)
    requires IsRun(cfg, states, acts) && i < |states|
    ensures (forall j :: 0 <= j <= i ==> SignalsInOrder(states[j]))
       <==> (forall j :: 0 <= j < i ==> KeepsTurn(states[j], acts[j]))
  {
    hide Inv, KeepsTurn, Next;
    if i > 0 {
      SignalsInOrderIff(cfg, states, acts, i - 1);
      RunKeepsInv(cfg, states, acts, i - 1);
      if SignalsInOrder(states[i - 1]) {
        StepInOrder(states[i - 1], acts[i - 1]);
      }
      assert (forall j :: 0 <= j <= i ==> SignalsInOrder(states[j]))
        <==> SignalsInOrder(states[i]) && forall j :: 0 <= j <= i - 1 ==> SignalsInOrder(states[j]);
    }
  }

  /** The send inside signalNext always finds room in the ticket's one-slot buffer. */
  lemma SendNeverBlocks(cfg: Config, states: seq<State>, acts: seq<Action>, i: nat, g: nat)
    requires IsRun(cfg, states, acts) && i < |states| && g < |states[i].gs| && states[i].gs[g].Sending?
    ensures Enabled(states[i], Send(g))
    ensures states[i].gs[g].ticket !in states[i].hist.signalled
  {
    RunKeepsInv(cfg, states, acts, i);
  }

  lemma StepExtendsLogs(s: State, a: Action)
    requires Enabled(s, a)
    ensures var r := Next(s, a);
      && Extends(r.hist.enqueued, s.hist.enqueued)
      && Extends(r.hist.dequeued, s.hist.dequeued)
      && s.hist.expiries <= r.hist.expiries
  {
    hide Sum;
  }

  /** What was logged stays logged, at the same place. */
  lemma {:induction false} LogsGrow(cfg: Config, states: seq<State>, acts: seq<Action>, i: nat, j: nat)
    requires IsRun(cfg, states, acts) && i <= j < |states|
    ensures Extends(states[j].hist.enqueued, states[i].hist.enqueued)
    ensures Extends(states[j].hist.dequeued, states[i].hist.dequeued)
    ensures states[i].hist.expiries <= states[j].hist.expiries
    decreases j
  {
    if i < j {
      LogsGrow(cfg, states, acts, i, j - 1);
      StepExtendsLogs(states[j - 1], acts[j - 1]);
    }
  }

  // ---- Stranded waiters ----

  /** Where a queued ticket stands in the log of entries. */
  lemma PlaceOf(s: State, t: nat) returns (n: nat)
    requires s.hist.enqueued == s.hist.dequeued + s.queue && t in s.queue
    ensures |s.hist.dequeued| <= n < |s.hist.enqueued| && s.hist.enqueued[n] == t
  {
    var k :| 0 <= k < |s.queue| && s.queue[k] == t;
    n := |s.hist.dequeued| + k;
  }

  /** A ticket of the queue that is still there later was there all the time. */
  lemma QueuedBetween(cfg: Config, states: seq<State>, acts: seq<Action>, i: nat, k: nat, j: nat, t: nat)
    requires IsRun(cfg, states, acts) && i <= k <= j < |states|
    requires t in states[i].queue && t in states[j].queue
    ensures t in states[k].queue
  {
    hide IsRun, Inv;
    FifoOrder(cfg, states, acts, i);
    FifoOrder(cfg, states, acts, k);
    FifoOrder(cfg, states, acts, j);
    LogsGrow(cfg, states, acts, i, k);
    LogsGrow(cfg, states, acts, k, j);
    var n := PlaceOf(states[i], t);
    var m := PlaceOf(states[j], t);
    assert states[k].hist.enqueued[n] == t && states[j].hist.enqueued[n] == t;
    assert n == m;
    assert states[k].queue[n - |states[k].hist.dequeued|] == t;
  }

  /** Without safety timeouts, a step swallows nothing. */
  lemma NothingSwallowed(s: State, a: Action)
    requires Inv(s) && Enabled(s, a) && Next(s, a).hist.expiries == 0
    ensures Swallows(s, a) == 0
  {
    hide Sum;
    if a.Send? {
      SumBoundsTerm(s.tickets, s.gs[a.g].ticket, Forsaken);
    }
  }

  /** At state m no slot is in use or on its way, and nobody is admitted directly from then until state j. */
  ghost predicate IdleSince(states: seq<State>, acts: seq<Action>, m: nat, j: nat)
    requires |states| == |acts| + 1 && m <= j < |states|
  {
    Busy(states[m]) == 0 && forall k :: m <= k < j ==> !Admits(states[k], acts[k])
  }

  /** If t waits in a queue that nobody serves, going back in time finds the step that left it so. */
  lemma {:induction false} LeftIdle(cfg: Config, states: seq<State>, acts: seq<Action>, i: nat, j: nat, t: nat)
    returns (m: nat)
    requires IsRun(cfg, states, acts) && i <= j < |states|
    requires t in states[i].queue && t in states[j].queue && Busy(states[j]) == 0
    ensures i <= m <= j && t in states[m].queue && IdleSince(states, acts, m, j)
    ensures m == i || Swallows(states[m - 1], acts[m - 1]) > 0
    decreases j
  {
    hide Sum, Inv, Next, Busy;
    m := j;
    if i < j && Swallows(states[j - 1], acts[j - 1]) == 0 {
      var s, a := states[j - 1], acts[j - 1];
      QueuedBetween(cfg, states, acts, i, j - 1, j, t);
      BusyStepOfRun(cfg, states, acts, j - 1);
      m := LeftIdle(cfg, states, acts, i, j - 1, t);
    }
  }

  /**
    A waiter queued while a slot was in use or on its way is not left behind: in a run without safety timeouts, once
    nothing is in use or on its way any more, its ticket has been dequeued.
   */
  lemma NoStrandingOfServedWaiters(cfg: Config, states: seq<State>, acts: seq<Action>, i: nat, j: nat, t: nat)
    requires IsRun(cfg, states, acts) && i <= j < |states|
    requires t in states[i].queue && Busy(states[i]) > 0
    requires Busy(states[j]) == 0 && states[j].hist.expiries == 0
    ensures t in states[j].hist.dequeued
  {
    hide Inv;
    if t in states[j].queue {
      var m := LeftIdle(cfg, states, acts, i, j, t);
      NoneSwallowedBefore(cfg, states, acts, m, j);
    } else {
      FifoOrder(cfg, states, acts, i);
      FifoOrder(cfg, states, acts, j);
      LogsGrow(cfg, states, acts, i, j);
      var n := PlaceOf(states[i], t);
      assert states[j].hist.enqueued[n] == t;
    }
  }

  lemma NoneSwallowedBefore(cfg: Config, states: seq<State>, acts: seq<Action>, m: nat, j: nat)
    requires IsRun(cfg, states, acts) && m <= j < |states| && states[j].hist.expiries == 0
    ensures m > 0 ==> Swallows(states[m - 1], acts[m - 1]) == 0
  {
    if m > 0 {
      RunKeepsInv(cfg, states, acts, m - 1);
      LogsGrow(cfg, states, acts, m, j);
      NothingSwallowed(states[m - 1], acts[m - 1]);
    }
  }

  lemma IdleStep(s: State, a: Action)
    requires Inv(s) && Enabled(s, a) && Busy(s) == 0 && !Admits(s, a)
    ensures Busy(Next(s, a)) == 0
    ensures forall t :: t in s.queue ==> t in Next(s, a).queue
  {
    hide Sum;
    assert TouchedAsExpected(s, a) by { StructureOfTouched(s, a); }
    BusyStep(s, a);
    if a.Dequeue? {
      SumBoundsTerm(s.gs, a.g, Carries);
    }
  }

  /** Nothing in use, nothing on its way, nothing admitted: the queue keeps every ticket. */
  lemma {:induction false} IdleKeepsQueue(cfg: Config, states: seq<State>, acts: seq<Action>, m: nat, j: nat, t: nat)
    requires IsRun(cfg, states, acts) && m <= j < |states|
    requires t in states[m].queue && IdleSince(states, acts, m, j)
    ensures t in states[j].queue && Busy(states[j]) == 0
    decreases j
  {
    hide Inv, Sum;
    if m < j {
      IdleKeepsQueue(cfg, states, acts, m, j - 1, t);
      RunKeepsInv(cfg, states, acts, j - 1);
      IdleStep(states[j - 1], acts[j - 1]);
    }
  }

  /**
    Exactly when a waiter is stranded. Step i puts ticket t in the queue. At a later state j, t still waits with no
    slot in use and no signal on its way, if and only if this has been so, without a direct admission, ever since
    some state m that is either the one in which t was queued or one left by a step that swallowed a signal.
   */
  lemma StrandedIff(cfg: Config, states: seq<State>, acts: seq<Action>, i: nat, j: nat, t: nat)
    requires IsRun(cfg, states, acts) && i < j < |states|
    requires acts[i].TryEnqueue? && states[i + 1].queue == states[i].queue + [t]
    ensures t in states[j].queue && Busy(states[j]) == 0
       <==> exists m: nat ::
              && i < m <= j && t in states[m].queue && IdleSince(states, acts, m, j)
              && (m == i + 1 || Swallows(states[m - 1], acts[m - 1]) > 0)
  {
    if t in states[j].queue && Busy(states[j]) == 0 {
      var m := LeftIdle(cfg, states, acts, i + 1, j, t);
    }
    forall m: nat | i < m <= j && t in states[m].queue && IdleSince(states, acts, m, j)
      ensures t in states[j].queue && Busy(states[j]) == 0
    {
      IdleKeepsQueue(cfg, states, acts, m, j, t);
    }
  }

  /**
    Without safety timeouts the condition can be read off when the ticket is queued: the waiter is stranded if and
    only if no slot is in use and no signal on its way at that moment, and nobody is admitted directly afterwards.
   */
  lemma StrandedWithoutExpiryIff(cfg: Config, states: seq<State>, acts: seq<Action>, i: nat, j: nat, t: nat)
    requires IsRun(cfg, states, acts) && i < j < |states|
    requires acts[i].TryEnqueue? && states[i + 1].queue == states[i].queue + [t]
    requires states[j].hist.expiries == 0
    ensures t in states[j].queue && Busy(states[j]) == 0
       <==> Busy(states[i]) == 0 && forall k :: i < k < j ==> !Admits(states[k], acts[k])
  {
    hide Inv, Sum;
    BusyStepOfRun(cfg, states, acts, i);
    if t in states[j].queue && Busy(states[j]) == 0 {
      var m := LeftIdle(cfg, states, acts, i + 1, j, t);
      NoneSwallowedBefore(cfg, states, acts, m, j);
    } else if Busy(states[i]) == 0 && forall k :: i < k < j ==> !Admits(states[k], acts[k]) {
      IdleKeepsQueue(cfg, states, acts, i + 1, j, t);
    }
  }
}
