/**
  The waiting room of waitingroom/waitingroom.go as a state machine.

  Every goroutine that ever existed is an entry of `gs`: its program counter names the atomic action it
  performs next. One step of the machine is one atomic action of one goroutine, so a sequence of steps is
  an arbitrary interleaving. Timers and contexts may fire at any moment, even when the ticket already holds
  a signal, because a Go `select` may pick any ready arm.
 */
module WaitingRoomProtocol {
  import opened Tally

  /** The two validated limits of config/config.go. */
  datatype Config = Config(maxConcurrent: nat, queueSize: nat)

  /** What a goroutine does next. A spawned `drainTicket` starts at Draining, a spawned `signalNext` at Dequeuing. */
  datatype Pc =
    | Arriving                   // about to add 1 to activeRequests
    | Undoing                    // saw a count over the limit, about to take its increment back
    | OverLimit                  // about to make a ticket and add 1 to queueDepth
    | Counted(ticket: nat)       // about to try the non-blocking send into the queue
    | Rejecting                  // queue was full, about to undo queueDepth
    | Parked(ticket: nat)        // in the three-way select
    | Received                   // took the signal, about to subtract 1 from queueDepth
    | Checking                   // about to look at the request context
    | Forwarding                 // client gone, about to spawn signalNext
    | Claiming                   // about to add 1 to activeRequests
    | Abandoning(ticket: nat)    // left the select by timeout or disconnect, about to spawn drainTicket
    | Running(direct: bool)      // inside the backend handler
    | Dequeuing                  // at the select of signalNext
    | Sending(ticket: nat)       // dequeued a ticket, about to send on it
    | Draining(ticket: nat)      // in the select of drainTicket
    | Drained                    // drainTicket took the signal, about to subtract 1 from queueDepth
    | Expired                    // drainTicket took the safety arm, about to subtract 1 from queueDepth
    | Done

  datatype Stage = Fresh | Queued | Taken(sender: nat) | Signalled

  datatype Reader = ReadBy(goroutine: nat) | Unread

  /**
    A one-slot ticket channel. `signals` is what the channel stores. `stage` and `reader` are bookkeeping that no
    step consults: how far the ticket has travelled, and which goroutine can still receive from it.
   */
  datatype Ticket = Ticket(signals: nat, stage: Stage, reader: Reader)

  /** Counts and logs of what has happened so far. No step consults it. */
  datatype History = History(
    releases: nat,          // backend slots given back by releaseSlot
    claims: nat,            // backend slots claimed on a signal
    dropped: nat,           // calls of signalNext that found the queue empty
    expiries: nat,          // drainTicket goroutines that took the safety arm
    enqueued: seq<nat>,     // tickets in the order in which they entered the queue
    dequeued: seq<nat>,     // tickets in the order in which they left it
    signalled: seq<nat>)    // tickets in the order in which they were sent a signal

  datatype State = State(
    cfg: Config,
    activeRequests: int,
    queueDepth: int,
    queue: seq<nat>,
    tickets: seq<Ticket>,
    gs: seq<Pc>,
    hist: History)

  datatype Action =
    | Arrive
    | Increment(g: nat)
    | Undo(g: nat)
    | CountIn(g: nat)
    | TryEnqueue(g: nat)
    | Reject(g: nat)
    | Receive(g: nat)
    | CountOut(g: nat)
    | CheckContext(g: nat, disconnected: bool)
    | SpawnForwarder(g: nat)
    | Claim(g: nat)
    | GiveUp(g: nat)
    | SpawnDrainer(g: nat)
    | Release(g: nat)
    | Dequeue(g: nat)
    | Send(g: nat)
    | DrainReceive(g: nat)
    | DrainCountOut(g: nat)
    | Expire(g: nat)
    | ExpireCountOut(g: nat)

  // ---- Weights: what one goroutine or one ticket contributes to a count ----

  function Bit(b: bool): nat { if b then 1 else 0 }

  predicate Waiting(p: Pc) { p.Counted? || p.Parked? || p.Abandoning? || p.Draining? }

  function Runs(p: Pc): nat { Bit(p.Running?) }
  function RunsDirect(p: Pc): nat { Bit(p == Running(true)) }
  function Undoes(p: Pc): nat { Bit(p.Undoing?) }
  function Waits(p: Pc): nat { Bit(Waiting(p)) }

  /** Has added 1 to queueDepth and not yet taken it back. */
  function CountsInQueue(p: Pc): nat { Bit(Waiting(p) || p.Rejecting? || p.Received? || p.Drained? || p.Expired?) }

  /** Carries a freed slot that is neither claimed nor handed to a ticket yet. */
  function Carries(p: Pc): nat {
    Bit(p.Dequeuing? || p.Sending? || p.Received? || p.Checking? || p.Forwarding? || p.Claiming? || p.Drained?)
  }

  function InQueue(t: Ticket): nat { Bit(t.stage.Queued?) }
  function Awaited(t: Ticket): nat { Bit(t.reader.ReadBy?) }

  /** Signals waiting for a goroutine that will still receive them. */
  function Loaded(t: Ticket): nat { if t.reader.ReadBy? then t.signals else 0 }

  /** Signals in a buffer that nobody will ever read. */
  function Swallowed(t: Ticket): nat { if t.reader.Unread? then t.signals else 0 }

  /** Nobody reads from the ticket any more, and a signal is on its way to it or may still be sent to it. */
  function Forsaken(t: Ticket): nat { Bit(t.reader.Unread? && (t.stage.Queued? || t.stage.Taken? || t.signals > 0)) }

  function InBackend(s: State): nat { Sum(s.gs, Runs) }

  /** P: freed slots on their way to a waiter. */
  function InFlight(s: State): nat { Sum(s.gs, Carries) + Sum(s.tickets, Loaded) }

  function Lost(s: State): nat { Sum(s.tickets, Swallowed) }

  // ---- Steps ----

  /** Goroutine at p can perform a. Only the waits on a ticket and the send on a ticket can block at all. */
  predicate Ready(tickets: seq<Ticket>, queue: seq<nat>, p: Pc, a: Action)
  {
    match a
    case Arrive => true
    case Increment(_) => p.Arriving?
    case Undo(_) => p.Undoing?
    case CountIn(_) => p.OverLimit?
    case TryEnqueue(_) => p.Counted? && p.ticket < |tickets|
    case Reject(_) => p.Rejecting?
    case Receive(_) => p.Parked? && p.ticket < |tickets| && tickets[p.ticket].signals > 0
    case CountOut(_) => p.Received?
    case CheckContext(_, _) => p.Checking?
    case SpawnForwarder(_) => p.Forwarding?
    case Claim(_) => p.Claiming?
    case GiveUp(_) => p.Parked?
    case SpawnDrainer(_) => p.Abandoning? && p.ticket < |tickets|
    case Release(_) => p.Running?
    case Dequeue(_) => p.Dequeuing? && (queue != [] ==> queue[0] < |tickets|)
    case Send(_) => p.Sending? && p.ticket < |tickets| && tickets[p.ticket].signals < 1
    case DrainReceive(_) => p.Draining? && p.ticket < |tickets| && tickets[p.ticket].signals > 0
    case DrainCountOut(_) => p.Drained?
    case Expire(_) => p.Draining? && p.ticket < |tickets|
    case ExpireCountOut(_) => p.Expired?
  }

  predicate Enabled(s: State, a: Action)
  {
    a.Arrive? || (a.g < |s.gs| && Ready(s.tickets, s.queue, s.gs[a.g], a))
  }

  /** Goroutine g moves on to p. */
  function Goto(s: State, g: nat, p: Pc): State
    requires g < |s.gs|
  {
    s.(gs := s.gs[g := p])
  }

  function SetTicket(s: State, t: nat, x: Ticket): State
    requires t < |s.tickets|
  {
    s.(tickets := s.tickets[t := x])
  }

  /** Line 222: the optimistic increment and the comparison with the limit. */
  function IncrementNext(s: State, g: nat): State
    requires g < |s.gs|
  {
    var count := s.activeRequests + 1;
    if count <= s.cfg.maxConcurrent then
      Goto(s, g, Running(true)).(activeRequests := count)
    else
      Goto(s, g, Undoing).(activeRequests := count)
  }

  /** Lines 256-260: the non-blocking send of the ticket into the queue. */
  function TryEnqueueNext(s: State, g: nat): State
    requires Enabled(s, TryEnqueue(g))
  {
    var t := s.gs[g].ticket;
    if |s.queue| < s.cfg.queueSize then
      SetTicket(Goto(s, g, Parked(t)), t, s.tickets[t].(stage := Queued))
      .(queue := s.queue + [t], hist := s.hist.(enqueued := s.hist.enqueued + [t]))
    else
      SetTicket(Goto(s, g, Rejecting), t, s.tickets[t].(reader := Unread))
  }

  /** Lines 386-394: take the front ticket, or return if there is none. */
  function DequeueNext(s: State, g: nat): State
    requires Enabled(s, Dequeue(g))
  {
    if s.queue == [] then
      Goto(s, g, Done).(hist := s.hist.(dropped := s.hist.dropped + 1))
    else
      var t := s.queue[0];
      SetTicket(Goto(s, g, Sending(t)), t, s.tickets[t].(stage := Taken(g)))
      .(queue := s.queue[1..], hist := s.hist.(dequeued := s.hist.dequeued + [t]))
  }

  /** Receive the signal of ticket t, after which nobody reads from it again. */
  function TakeSignal(s: State, g: nat, p: Pc): State
    requires g < |s.gs| && Waiting(s.gs[g]) && s.gs[g].ticket < |s.tickets|
    requires s.tickets[s.gs[g].ticket].signals > 0
  {
    var t := s.gs[g].ticket;
    SetTicket(Goto(s, g, p), t, s.tickets[t].(signals := s.tickets[t].signals - 1, reader := Unread))
  }

  function Next(s: State, a: Action): State
    requires Enabled(s, a)
  {
    match a
    case Arrive => s.(gs := s.gs + [Arriving])
    case Increment(g) => IncrementNext(s, g)
    case Undo(g) => Goto(s, g, OverLimit).(activeRequests := s.activeRequests - 1)
    case CountIn(g) =>
      Goto(s, g, Counted(|s.tickets|))
      .(tickets := s.tickets + [Ticket(0, Fresh, ReadBy(g))], queueDepth := s.queueDepth + 1)
    case TryEnqueue(g) => TryEnqueueNext(s, g)
    case Reject(g) => Goto(s, g, Done).(queueDepth := s.queueDepth - 1)
    case Receive(g) => TakeSignal(s, g, Received)
    case CountOut(g) => Goto(s, g, Checking).(queueDepth := s.queueDepth - 1)
    case CheckContext(g, disconnected) => Goto(s, g, if disconnected then Forwarding else Claiming)
    case SpawnForwarder(g) => s.(gs := s.gs[g := Done] + [Dequeuing])
    case Claim(g) =>
      Goto(s, g, Running(false)).(activeRequests := s.activeRequests + 1, hist := s.hist.(claims := s.hist.claims + 1))
    case GiveUp(g) => Goto(s, g, Abandoning(s.gs[g].ticket))
    case SpawnDrainer(g) =>
      var t := s.gs[g].ticket;
      SetTicket(s.(gs := s.gs[g := Done] + [Draining(t)]), t, s.tickets[t].(reader := ReadBy(|s.gs|)))
    case Release(g) =>
      Goto(s, g, Dequeuing).(activeRequests := s.activeRequests - 1, hist := s.hist.(releases := s.hist.releases + 1))
    case Dequeue(g) => DequeueNext(s, g)
    case Send(g) =>
      var t := s.gs[g].ticket;
      SetTicket(Goto(s, g, Done), t, s.tickets[t].(signals := s.tickets[t].signals + 1, stage := Signalled))
      .(hist := s.hist.(signalled := s.hist.signalled + [t]))
    case DrainReceive(g) => TakeSignal(s, g, Drained)
    case DrainCountOut(g) => Goto(s, g, Dequeuing).(queueDepth := s.queueDepth - 1)
    case Expire(g) =>
      var t := s.gs[g].ticket;
      SetTicket(Goto(s, g, Expired), t, s.tickets[t].(reader := Unread))
      .(hist := s.hist.(expiries := s.hist.expiries + 1))
    case ExpireCountOut(g) => Goto(s, g, Done).(queueDepth := s.queueDepth - 1)
  }

  /** New: nothing in flight, no goroutine yet (waitingroom.go:178-186). */
  function Init(cfg: Config): State
  {
    State(cfg, 0, 0, [], [], [], History(0, 0, 0, 0, [], [], []))
  }
}
