/** What every step of the waiting room keeps. */
module WaitingRoomInvariant {
  import opened Tally
  import opened WaitingRoomProtocol

  /** A ticket that can still be read is read by exactly the goroutine that waits on it. */
  ghost predicate ReadersAgree(s: State)
  {
    && (forall g :: 0 <= g < |s.gs| && Waiting(s.gs[g]) ==>
          s.gs[g].ticket < |s.tickets| && s.tickets[s.gs[g].ticket].reader == ReadBy(g))
    && (forall t :: 0 <= t < |s.tickets| && s.tickets[t].reader.ReadBy? ==>
          && s.tickets[t].reader.goroutine < |s.gs|
          && Waiting(s.gs[s.tickets[t].reader.goroutine])
          && s.gs[s.tickets[t].reader.goroutine].ticket == t)
  }

  /** A ticket being sent on has one sender, and only a signalled ticket can hold a signal, at most one. */
  ghost predicate TicketsTravel(s: State)
  {
    && (forall g :: 0 <= g < |s.gs| && s.gs[g].Sending? ==>
          s.gs[g].ticket < |s.tickets| && s.tickets[s.gs[g].ticket].stage == Taken(g))
    && (forall g :: 0 <= g < |s.gs| && Waiting(s.gs[g]) && s.gs[g].ticket < |s.tickets| ==>
          (s.gs[g].Counted? <==> s.tickets[s.gs[g].ticket].stage.Fresh?))
    && (forall t :: 0 <= t < |s.tickets| ==>
          s.tickets[t].signals <= Bit(s.tickets[t].stage.Signalled?))
    && (forall t :: 0 <= t < |s.tickets| && s.tickets[t].stage.Signalled? && s.tickets[t].reader.ReadBy? ==>
          s.tickets[t].signals == 1)
  }

  ghost predicate Distinct(q: seq<nat>)
  {
    forall i, j :: 0 <= i < j < |q| ==> q[i] != q[j]
  }

  /** The logs hold each ticket at most once, exactly when it got that far, and the queue is what the logs leave. */
  ghost predicate QueueIsFifo(s: State)
  {
    && s.hist.enqueued == s.hist.dequeued + s.queue
    && Distinct(s.hist.enqueued)
    && Distinct(s.hist.signalled)
    && (forall i :: 0 <= i < |s.hist.enqueued| ==>
          && s.hist.enqueued[i] < |s.tickets|
          && !s.tickets[s.hist.enqueued[i]].stage.Fresh?
          && (s.tickets[s.hist.enqueued[i]].stage.Queued? <==> i >= |s.hist.dequeued|))
    && (forall t :: 0 <= t < |s.tickets| && !s.tickets[t].stage.Fresh? ==> t in s.hist.enqueued)
    && (forall t :: 0 <= t < |s.tickets| ==> (s.tickets[t].stage.Signalled? <==> t in s.hist.signalled))
    && (forall i :: 0 <= i < |s.hist.signalled| ==> s.hist.signalled[i] < |s.tickets|)
    && |s.queue| <= s.cfg.queueSize
  }

  ghost predicate Structure(s: State)
  {
    ReadersAgree(s) && TicketsTravel(s) && QueueIsFifo(s)
  }

  /** The counters, the length of the queue and the safety timeouts, as sums over goroutines and tickets. */
  ghost predicate CountersExact(s: State)
  {
    && s.activeRequests == Sum(s.gs, Runs) + Sum(s.gs, Undoes)
    && s.queueDepth == Sum(s.gs, CountsInQueue)
    && |s.queue| == Sum(s.tickets, InQueue)
    && Sum(s.tickets, Awaited) == Sum(s.gs, Waits)
    && Sum(s.tickets, Forsaken) == s.hist.expiries
  }

  /** Every freed slot is claimed, dropped on an empty queue, lost to a safety timeout, or still in flight. */
  ghost predicate SignalsConserved(s: State)
  {
    s.hist.releases == s.hist.claims + s.hist.dropped + Lost(s) + InFlight(s)
  }

  /** R + P: slots in use or on their way to a waiter. */
  function Busy(s: State): nat { InBackend(s) + InFlight(s) }

  /** Requests that were admitted directly and are still running fit under the limit. */
  ghost predicate DirectWithinLimit(s: State)
  {
    Sum(s.gs, RunsDirect) <= s.cfg.maxConcurrent
  }

  ghost predicate Inv(s: State)
  {
    Structure(s) && CountersExact(s) && SignalsConserved(s) && DirectWithinLimit(s)
  }

  lemma InitStructure(cfg: Config)
    ensures Structure(Init(cfg))
  {
    hide Sum;
  }

  lemma InitInv(cfg: Config)
    ensures Inv(Init(cfg))
  {
    hide Structure;
    InitStructure(cfg);
  }

  // ---- How sums move in one step ----

  /** Where the acting goroutine was, where it is afterwards, and what it spawned (Done if nothing). */
  function Before(s: State, a: Action): Pc
    requires Enabled(s, a)
  {
    if a.Arrive? then Done else s.gs[a.g]
  }

  function After(s: State, a: Action): Pc
    requires Enabled(s, a)
  {
    if a.Arrive? then Done else Next(s, a).gs[a.g]
  }

  function Spawned(s: State, a: Action): Pc
    requires Enabled(s, a)
  {
    match a
    case Arrive => Arriving
    case SpawnForwarder(_) => Dequeuing
    case SpawnDrainer(g) => Draining(s.gs[g].ticket)
    case _ => Done
  }

  /** A step moves one goroutine and starts at most one. */
  lemma GoroutinesAfter(s: State, a: Action)
    requires Enabled(s, a)
    ensures a.Arrive? ==> Next(s, a).gs == s.gs + [Arriving] && After(s, a) == Done
    ensures !a.Arrive? ==>
      Next(s, a).gs == s.gs[a.g := After(s, a)] || Next(s, a).gs == s.gs[a.g := After(s, a)] + [Spawned(s, a)]
    ensures !a.Arrive? && Next(s, a).gs == s.gs[a.g := After(s, a)] ==> Spawned(s, a).Done?
  {
  }

  lemma GoroutineSum(s: State, a: Action, f: Pc -> nat)
    requires Enabled(s, a) && f(Done) == 0
    ensures Sum(Next(s, a).gs, f) + f(Before(s, a)) == Sum(s.gs, f) + f(After(s, a)) + f(Spawned(s, a))
  {
    hide Sum, Next, After;
    GoroutinesAfter(s, a);
    if a.Arrive? {
      SumAppend(s.gs, Arriving, f);
    } else {
      SumUpdate(s.gs, a.g, After(s, a), f);
      SumAppend(s.gs[a.g := After(s, a)], Spawned(s, a), f);
    }
  }

  /** The ticket that the step changes, if it changes one that exists. */
  predicate Touches(s: State, a: Action)
    requires Enabled(s, a)
  {
    a.TryEnqueue? || a.Receive? || a.SpawnDrainer? || a.Send? || a.DrainReceive? || a.Expire? ||
    (a.Dequeue? && s.queue != [])
  }

  function Touched(s: State, a: Action): nat
    requires Enabled(s, a) && Touches(s, a)
    ensures Touched(s, a) < |s.tickets|
  {
    if a.Dequeue? then s.queue[0] else s.gs[a.g].ticket
  }

  lemma TicketSum(s: State, a: Action, f: Ticket -> nat)
    requires Enabled(s, a)
    ensures var r := Next(s, a);
      if Touches(s, a) then
        var t := Touched(s, a);
        Sum(r.tickets, f) + f(s.tickets[t]) == Sum(s.tickets, f) + f(r.tickets[t])
      else if a.CountIn? then
        Sum(r.tickets, f) == Sum(s.tickets, f) + f(Ticket(0, Fresh, ReadBy(a.g)))
      else
        r.tickets == s.tickets
  {
    if Touches(s, a) {
      SumUpdate(s.tickets, Touched(s, a), Next(s, a).tickets[Touched(s, a)], f);
    } else if a.CountIn? {
      SumAppend(s.tickets, Ticket(0, Fresh, ReadBy(a.g)), f);
    }
  }

  /** What the structure says about the ticket that a step is about to change. */
  ghost predicate TouchedAsExpected(s: State, a: Action)
    requires Enabled(s, a)
  {
    Touches(s, a) ==>
      var x := s.tickets[Touched(s, a)];
      match a
      case TryEnqueue(g) => x == Ticket(0, Fresh, ReadBy(g))
      case Receive(g) => x == Ticket(1, Signalled, ReadBy(g))
      case DrainReceive(g) => x == Ticket(1, Signalled, ReadBy(g))
      case Dequeue(_) => x.stage == Queued && x.signals == 0
      case Send(g) => x.stage == Taken(g) && x.signals == 0
      case Expire(g) => x.reader == ReadBy(g) && (x.stage.Queued? || x.stage.Taken? || x.signals > 0)
      case _ => x.reader == ReadBy(a.g)
  }

  lemma StructureOfTouched(s: State, a: Action)
    requires Structure(s) && Enabled(s, a)
    ensures TouchedAsExpected(s, a)
  {
    if a.Dequeue? && s.queue != [] {
      assert s.hist.enqueued[|s.hist.dequeued|] == s.queue[0];
    }
  }

  // ---- Each equation is kept ----

  lemma ActiveKept(s: State, a: Action)
    requires CountersExact(s) && Enabled(s, a)
    ensures Next(s, a).activeRequests == Sum(Next(s, a).gs, Runs) + Sum(Next(s, a).gs, Undoes)
  {
    hide Sum;
    GoroutineSum(s, a, Runs);
    GoroutineSum(s, a, Undoes);
  }

  lemma DepthKept(s: State, a: Action)
    requires CountersExact(s) && Enabled(s, a)
    ensures Next(s, a).queueDepth == Sum(Next(s, a).gs, CountsInQueue)
  {
    hide Sum;
    GoroutineSum(s, a, CountsInQueue);
  }

  lemma LengthKept(s: State, a: Action)
    requires CountersExact(s) && Enabled(s, a) && TouchedAsExpected(s, a)
    ensures |Next(s, a).queue| == Sum(Next(s, a).tickets, InQueue)
  {
    hide Sum;
    TicketSum(s, a, InQueue);
  }

  lemma AwaitedKept(s: State, a: Action)
    requires CountersExact(s) && Enabled(s, a) && TouchedAsExpected(s, a)
    ensures Sum(Next(s, a).tickets, Awaited) == Sum(Next(s, a).gs, Waits)
  {
    hide Sum;
    GoroutineSum(s, a, Waits);
    TicketSum(s, a, Awaited);
  }

  /** Each safety timeout forsakes one ticket for good, and nothing else does. */
  lemma ForsakenKept(s: State, a: Action)
    requires CountersExact(s) && Enabled(s, a) && TouchedAsExpected(s, a)
    ensures Sum(Next(s, a).tickets, Forsaken) == Next(s, a).hist.expiries
  {
    hide Sum;
    TicketSum(s, a, Forsaken);
  }

  /** Signals that this step leaves to a ticket that nobody reads. */
  function Swallows(s: State, a: Action): nat
    requires Enabled(s, a)
  {
    if a.Send? then Bit(s.tickets[s.gs[a.g].ticket].reader.Unread?)
    else if a.Expire? then s.tickets[s.gs[a.g].ticket].signals
    else 0
  }

  predicate Admits(s: State, a: Action) { a.Increment? && s.activeRequests < s.cfg.maxConcurrent }

  predicate Drops(s: State, a: Action) { a.Dequeue? && s.queue == [] }

  lemma LostStep(s: State, a: Action)
    requires Enabled(s, a) && TouchedAsExpected(s, a)
    ensures Lost(Next(s, a)) == Lost(s) + Swallows(s, a)
  {
    hide Sum;
    TicketSum(s, a, Swallowed);
  }

  /** A sent signal passes from its carrier to the ticket, and back when it is received. */
  lemma CarriedStep(s: State, a: Action)
    requires Enabled(s, a)
    ensures Sum(Next(s, a).gs, Carries) + Bit(a.Claim?) + Bit(Drops(s, a)) + Bit(a.Send?)
         == Sum(s.gs, Carries) + Bit(a.Release?) + Bit(a.Receive? || a.DrainReceive?)
  {
    hide Sum;
    GoroutineSum(s, a, Carries);
  }

  lemma LoadedStep(s: State, a: Action)
    requires Enabled(s, a) && TouchedAsExpected(s, a)
    ensures Sum(Next(s, a).tickets, Loaded) + Bit(a.Receive? || a.DrainReceive?) + Swallows(s, a)
         == Sum(s.tickets, Loaded) + Bit(a.Send?)
  {
    hide Sum;
    TicketSum(s, a, Loaded);
  }

  lemma InFlightStep(s: State, a: Action)
    requires Enabled(s, a) && TouchedAsExpected(s, a)
    ensures InFlight(Next(s, a)) + Bit(a.Claim?) + Bit(Drops(s, a)) + Swallows(s, a) == InFlight(s) + Bit(a.Release?)
  {
    hide Sum, Next, Swallows, TouchedAsExpected;
    CarriedStep(s, a);
    LoadedStep(s, a);
  }

  lemma BackendStep(s: State, a: Action)
    requires Enabled(s, a)
    ensures InBackend(Next(s, a)) + Bit(a.Release?) == InBackend(s) + Bit(Admits(s, a)) + Bit(a.Claim?)
  {
    hide Sum;
    GoroutineSum(s, a, Runs);
  }

  lemma SignalsKept(s: State, a: Action)
    requires SignalsConserved(s) && Enabled(s, a) && TouchedAsExpected(s, a)
    ensures SignalsConserved(Next(s, a))
  {
    hide Sum;
    LostStep(s, a);
    InFlightStep(s, a);
  }

  /** Busy grows only by a direct admission, and shrinks only when a signal is dropped or swallowed. */
  lemma BusyStep(s: State, a: Action)
    requires Enabled(s, a) && TouchedAsExpected(s, a)
    ensures Busy(Next(s, a)) + Bit(Drops(s, a)) + Swallows(s, a) == Busy(s) + Bit(Admits(s, a))
  {
    hide Sum;
    InFlightStep(s, a);
    BackendStep(s, a);
  }

  lemma DirectKept(s: State, a: Action)
    requires CountersExact(s) && DirectWithinLimit(s) && Enabled(s, a)
    ensures DirectWithinLimit(Next(s, a))
  {
    hide Sum;
    GoroutineSum(s, a, RunsDirect);
    SumAtMost(s.gs, RunsDirect, Runs);
  }

  // ---- The structure is kept ----

  predicate Aside(p: Pc) { !Waiting(p) && !p.Sending? }

  /** A step that concerns neither a ticket nor a goroutine that refers to one. */
  ghost predicate Quiet(s: State, r: State, g: nat)
  {
    && r.tickets == s.tickets && r.queue == s.queue && r.cfg == s.cfg && |s.gs| <= |r.gs|
    && r.hist == s.hist.(releases := r.hist.releases, claims := r.hist.claims, dropped := r.hist.dropped)
    && (forall i :: 0 <= i < |s.gs| && i != g ==> r.gs[i] == s.gs[i])
    && (g < |s.gs| ==> Aside(s.gs[g]) && Aside(r.gs[g]))
    && (forall i :: |s.gs| <= i < |r.gs| ==> Aside(r.gs[i]))
  }

  predicate Loud(s: State, a: Action)
    requires Enabled(s, a)
  {
    Touches(s, a) || a.CountIn? || a.GiveUp?
  }

  lemma OtherStepsAreQuiet(s: State, a: Action)
    requires Enabled(s, a) && !Loud(s, a)
    ensures Quiet(s, Next(s, a), if a.Arrive? then |s.gs| else a.g)
  {
    hide Sum;
  }

  lemma QuietKept(s: State, r: State, g: nat)
    requires Structure(s) && Quiet(s, r, g)
    ensures Structure(r)
  {
  }

  lemma StartWaitingKeepsTickets(s: State, a: Action)
    requires Structure(s) && Enabled(s, a) && TouchedAsExpected(s, a)
    requires a.CountIn? || a.GiveUp?
    ensures ReadersAgree(Next(s, a)) && TicketsTravel(Next(s, a))
  {
    hide Sum, QueueIsFifo;
  }

  lemma StartWaitingKept(s: State, a: Action)
    requires Structure(s) && Enabled(s, a) && TouchedAsExpected(s, a)
    requires a.CountIn? || a.GiveUp?
    ensures Structure(Next(s, a))
  {
    hide Sum, ReadersAgree;
    StartWaitingKeepsTickets(s, a);
  }

  lemma SpawnDrainerKeepsTickets(s: State, a: Action)
    requires Structure(s) && Enabled(s, a) && TouchedAsExpected(s, a)
    requires a.SpawnDrainer?
    ensures ReadersAgree(Next(s, a)) && TicketsTravel(Next(s, a))
  {
    hide Sum, QueueIsFifo;
  }

  lemma SpawnDrainerKept(s: State, a: Action)
    requires Structure(s) && Enabled(s, a) && TouchedAsExpected(s, a)
    requires a.SpawnDrainer?
    ensures Structure(Next(s, a))
  {
    hide Sum, ReadersAgree;
    SpawnDrainerKeepsTickets(s, a);
  }

  lemma TakeSignalKept(s: State, g: nat, p: Pc)
    requires Structure(s) && g < |s.gs| && Waiting(s.gs[g]) && s.gs[g].ticket < |s.tickets| && Aside(p)
    requires s.tickets[s.gs[g].ticket] == Ticket(1, Signalled, ReadBy(g))
    ensures Structure(TakeSignal(s, g, p))
  {
    hide Sum;
  }

  lemma ExpireKeepsTickets(s: State, a: Action)
    requires Structure(s) && Enabled(s, a) && TouchedAsExpected(s, a)
    requires a.Expire?
    ensures ReadersAgree(Next(s, a)) && TicketsTravel(Next(s, a))
  {
    hide Sum, QueueIsFifo;
  }

  lemma ExpireKept(s: State, a: Action)
    requires Structure(s) && Enabled(s, a) && TouchedAsExpected(s, a)
    requires a.Expire?
    ensures Structure(Next(s, a))
  {
    hide Sum, ReadersAgree;
    ExpireKeepsTickets(s, a);
  }

  lemma EnqueueKeepsTickets(s: State, a: Action)
    requires Structure(s) && Enabled(s, a) && TouchedAsExpected(s, a)
    requires a.TryEnqueue?
    ensures ReadersAgree(Next(s, a)) && TicketsTravel(Next(s, a))
  {
    hide Sum, QueueIsFifo;
  }

  lemma EnqueueKept(s: State, a: Action)
    requires Structure(s) && Enabled(s, a) && TouchedAsExpected(s, a)
    requires a.TryEnqueue?
    ensures Structure(Next(s, a))
  {
    hide Sum, ReadersAgree;
    EnqueueKeepsTickets(s, a);
  }

  lemma DequeueKeepsTickets(s: State, a: Action)
    requires Structure(s) && Enabled(s, a) && TouchedAsExpected(s, a)
    requires a.Dequeue? && s.queue != []
    ensures ReadersAgree(Next(s, a)) && TicketsTravel(Next(s, a))
  {
    hide Sum, QueueIsFifo;
  }

  lemma DequeueKept(s: State, a: Action)
    requires Structure(s) && Enabled(s, a) && TouchedAsExpected(s, a)
    requires a.Dequeue? && s.queue != []
    ensures Structure(Next(s, a))
  {
    hide Sum, ReadersAgree, TicketsTravel;
    DequeueKeepsTickets(s, a);
    assert Next(s, a).hist.enqueued == s.hist.enqueued;
    assert s.hist.enqueued[|s.hist.dequeued|] == s.queue[0];
  }

  lemma SendKeepsTickets(s: State, a: Action)
    requires Structure(s) && Enabled(s, a) && TouchedAsExpected(s, a)
    requires a.Send?
    ensures ReadersAgree(Next(s, a)) && TicketsTravel(Next(s, a))
  {
    hide Sum, QueueIsFifo;
  }

  lemma SendKept(s: State, a: Action)
    requires Structure(s) && Enabled(s, a) && TouchedAsExpected(s, a)
    requires a.Send?
    ensures Structure(Next(s, a))
  {
    hide Sum, ReadersAgree;
    SendKeepsTickets(s, a);
  }

  lemma StructureKept(s: State, a: Action)
    requires Structure(s) && Enabled(s, a) && TouchedAsExpected(s, a)
    ensures Structure(Next(s, a))
  {
    hide Structure;
    if !Loud(s, a) {
      OtherStepsAreQuiet(s, a);
      QuietKept(s, Next(s, a), if a.Arrive? then |s.gs| else a.g);
    } else {
      match a
      case SpawnDrainer(_) => SpawnDrainerKept(s, a);
      case Expire(_) => ExpireKept(s, a);
      case TryEnqueue(_) => EnqueueKept(s, a);
      case Dequeue(_) => DequeueKept(s, a);
      case Send(_) => SendKept(s, a);
      case Receive(g) => TakeSignalKept(s, g, Received);
      case DrainReceive(g) => TakeSignalKept(s, g, Drained);
      case _ => StartWaitingKept(s, a);
    }
  }

  lemma StepKeepsInv(s: State, a: Action)
    requires Inv(s) && Enabled(s, a)
    ensures Inv(Next(s, a))
  {
    hide Structure, Sum;
    assert TouchedAsExpected(s, a) by { StructureOfTouched(s, a); }
    StructureKept(s, a);
    ActiveKept(s, a);
    DepthKept(s, a);
    LengthKept(s, a);
    AwaitedKept(s, a);
    ForsakenKept(s, a);
    SignalsKept(s, a);
    DirectKept(s, a);
  }
}
