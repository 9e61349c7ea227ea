/**
  The waiting room as the object of waitingroom/waitingroom.go: its atomic counters, its queue channel and its
  ticket channels, updated in place by one method per atomic action. The object carries, as ghosts, the run that led
  to its present state, so that the theorems about runs are theorems about the object.
 */
module WaitingRooms {
  import opened Tally
  import opened WaitingRoomProtocol
  import opened WaitingRoomInvariant
  import opened WaitingRoomRuns

  class WaitingRoom {
    const cfg: Config
    var activeRequests: int
    var queueDepth: int
    var queue: seq<nat>         // the FIFO channel of tickets
    var buffers: seq<nat>       // buffers[t] signals are stored in the one-slot channel of ticket t
    var pcs: seq<Pc>            // where each goroutine is

    ghost var states: seq<State>
    ghost var acts: seq<Action>

    ghost predicate Valid()
      reads this
    {
      IsRun(cfg, states, acts) && Agrees(View())
    }

    ghost function View(): State
      reads this
      requires IsRun(cfg, states, acts)
    {
      states[|acts|]
    }

    ghost predicate Agrees(s: State)
      reads this
    {
      && activeRequests == s.activeRequests && queueDepth == s.queueDepth && queue == s.queue && pcs == s.gs
      && |buffers| == |s.tickets|
      && forall t :: 0 <= t < |buffers| ==> buffers[t] == s.tickets[t].signals
    }

    /** The object has taken exactly the step a. */
    twostate predicate Took(a: Action)
      requires old(IsRun(cfg, states, acts)) && IsRun(cfg, states, acts)
      reads this
    {
      && acts == old(acts) + [a]
      && Enabled(old(View()), a)
      && View() == Next(old(View()), a)
    }

    ghost method Record(a: Action)
      requires IsRun(cfg, states, acts) && Enabled(View(), a)
      modifies this`states, this`acts
      ensures IsRun(cfg, states, acts) && Took(a)
    {
      states := states + [Next(View(), a)];
      acts := acts + [a];
    }

    lemma Invariant()
      requires Valid()
      ensures Inv(View()) && View().cfg == cfg
    {
      RunKeepsInv(cfg, states, acts, |acts|);
    }

    /** A ticket channel never holds more than one signal. */
    lemma OneSignalAtMost(t: nat)
      requires Valid() && t < |buffers|
      ensures buffers[t] <= 1
    {
      Invariant();
    }

    constructor (cfg: Config)
      ensures Valid() && this.cfg == cfg && View() == Init(cfg)
      ensures activeRequests == queueDepth == 0 && queue == [] && buffers == [] && pcs == []
    {
      this.cfg := cfg;
      activeRequests, queueDepth := 0, 0;
      queue, buffers, pcs := [], [], [];
      states, acts := [Init(cfg)], [];
    }

    /** A request reaches the middleware. */
    method Arrive()
      requires Valid()
      modifies `pcs, `states, `acts
      ensures Valid() && Took(Action.Arrive)
      ensures pcs == old(pcs) + [Arriving]
    {
      pcs := pcs + [Arriving];
      Record(Action.Arrive);
    }

    /** Path A: add 1 to activeRequests and run if the result is within the limit. */
    method Increment(g: nat)
      requires Valid() && g < |pcs| && pcs[g].Arriving?
      modifies `activeRequests, `pcs, `states, `acts
      ensures Valid() && Took(Action.Increment(g))
      ensures activeRequests == old(activeRequests) + 1
      ensures pcs == old(pcs)[g := if old(activeRequests) < cfg.maxConcurrent then Running(true) else Undoing]
    {
      Invariant();
      hide Inv;
      activeRequests := activeRequests + 1;
      if activeRequests <= cfg.maxConcurrent {
        pcs := pcs[g := Running(true)];
      } else {
        pcs := pcs[g := Undoing];
      }
      Record(Action.Increment(g));
    }

    method Undo(g: nat)
      requires Valid() && g < |pcs| && pcs[g].Undoing?
      modifies `activeRequests, `pcs, `states, `acts
      ensures Valid() && Took(Action.Undo(g))
      ensures activeRequests == old(activeRequests) - 1 && pcs == old(pcs)[g := OverLimit]
    {
      activeRequests := activeRequests - 1;
      pcs := pcs[g := OverLimit];
      Record(Action.Undo(g));
    }

    /** Path B: make a one-slot ticket and count the request as queued. */
    method CountIn(g: nat)
      requires Valid() && g < |pcs| && pcs[g].OverLimit?
      modifies `buffers, `queueDepth, `pcs, `states, `acts
      ensures Valid() && Took(Action.CountIn(g))
      ensures buffers == old(buffers) + [0] && queueDepth == old(queueDepth) + 1
      ensures pcs == old(pcs)[g := Counted(|old(buffers)|)]
    {
      var ticket := |buffers|;
      buffers := buffers + [0];
      queueDepth := queueDepth + 1;
      pcs := pcs[g := Counted(ticket)];
      Record(Action.CountIn(g));
    }

    /** The non-blocking send of the ticket: park, or be turned away if the queue is full. */
    method TryEnqueue(g: nat)
      requires Valid() && g < |pcs| && pcs[g].Counted?
      modifies `queue, `pcs, `states, `acts
      ensures Valid() && Took(Action.TryEnqueue(g))
      ensures |old(queue)| < cfg.queueSize ==>
        queue == old(queue) + [old(pcs[g].ticket)] && pcs == old(pcs)[g := Parked(old(pcs[g].ticket))]
      ensures |old(queue)| >= cfg.queueSize ==> queue == old(queue) && pcs == old(pcs)[g := Rejecting]
    {
      Invariant();
      var ticket := pcs[g].ticket;
      assert ticket < |buffers|;
      hide Inv;
      if |queue| < cfg.queueSize {
        queue := queue + [ticket];
        pcs := pcs[g := Parked(ticket)];
      } else {
        pcs := pcs[g := Rejecting];
      }
      Record(Action.TryEnqueue(g));
    }

    method Reject(g: nat)
      requires Valid() && g < |pcs| && pcs[g].Rejecting?
      modifies `queueDepth, `pcs, `states, `acts
      ensures Valid() && Took(Action.Reject(g))
      ensures queueDepth == old(queueDepth) - 1 && pcs == old(pcs)[g := Done]
    {
      queueDepth := queueDepth - 1;
      pcs := pcs[g := Done];
      Record(Action.Reject(g));
    }

    /** The first arm of the three-way select. */
    method Receive(g: nat)
      requires Valid() && g < |pcs| && pcs[g].Parked?
      requires pcs[g].ticket < |buffers| && buffers[pcs[g].ticket] > 0
      modifies `buffers, `pcs, `states, `acts
      ensures Valid() && Took(Action.Receive(g))
      ensures buffers == old(buffers[pcs[g].ticket := 0]) && pcs == old(pcs)[g := Received]
    {
      var ticket := pcs[g].ticket;
      OneSignalAtMost(ticket);
      buffers := buffers[ticket := buffers[ticket] - 1];
      pcs := pcs[g := Received];
      Record(Action.Receive(g));
    }

    method CountOut(g: nat)
      requires Valid() && g < |pcs| && pcs[g].Received?
      modifies `queueDepth, `pcs, `states, `acts
      ensures Valid() && Took(Action.CountOut(g))
      ensures queueDepth == old(queueDepth) - 1 && pcs == old(pcs)[g := Checking]
    {
      queueDepth := queueDepth - 1;
      pcs := pcs[g := Checking];
      Record(Action.CountOut(g));
    }

    method CheckContext(g: nat, disconnected: bool)
      requires Valid() && g < |pcs| && pcs[g].Checking?
      modifies `pcs, `states, `acts
      ensures Valid() && Took(Action.CheckContext(g, disconnected))
      ensures pcs == old(pcs)[g := if disconnected then Forwarding else Claiming]
    {
      if disconnected {
        pcs := pcs[g := Forwarding];
      } else {
        pcs := pcs[g := Claiming];
      }
      Record(Action.CheckContext(g, disconnected));
    }

    method SpawnForwarder(g: nat)
      requires Valid() && g < |pcs| && pcs[g].Forwarding?
      modifies `pcs, `states, `acts
      ensures Valid() && Took(Action.SpawnForwarder(g))
      ensures pcs == old(pcs)[g := Done] + [Dequeuing]
    {
      pcs := pcs[g := Done] + [Dequeuing];
      Record(Action.SpawnForwarder(g));
    }

    method Claim(g: nat)
      requires Valid() && g < |pcs| && pcs[g].Claiming?
      modifies `activeRequests, `pcs, `states, `acts
      ensures Valid() && Took(Action.Claim(g))
      ensures activeRequests == old(activeRequests) + 1 && pcs == old(pcs)[g := Running(false)]
    {
      activeRequests := activeRequests + 1;
      pcs := pcs[g := Running(false)];
      Record(Action.Claim(g));
    }

    /** The timeout arm or the disconnect arm of the three-way select: both lead to a drainer. */
    method GiveUp(g: nat)
      requires Valid() && g < |pcs| && pcs[g].Parked?
      modifies `pcs, `states, `acts
      ensures Valid() && Took(Action.GiveUp(g))
      ensures pcs == old(pcs)[g := Abandoning(old(pcs[g].ticket))]
    {
      pcs := pcs[g := Abandoning(pcs[g].ticket)];
      Record(Action.GiveUp(g));
    }

    method SpawnDrainer(g: nat)
      requires Valid() && g < |pcs| && pcs[g].Abandoning?
      modifies `pcs, `states, `acts
      ensures Valid() && Took(Action.SpawnDrainer(g))
      ensures pcs == old(pcs)[g := Done] + [Draining(old(pcs[g].ticket))]
    {
      Invariant();
      assert pcs[g].ticket < |buffers|;
      hide Inv;
      pcs := pcs[g := Done] + [Draining(pcs[g].ticket)];
      Record(Action.SpawnDrainer(g));
    }

    /** releaseSlot gives the slot back; signalNext follows as separate steps. */
    method Release(g: nat)
      requires Valid() && g < |pcs| && pcs[g].Running?
      modifies `activeRequests, `pcs, `states, `acts
      ensures Valid() && Took(Action.Release(g))
      ensures activeRequests == old(activeRequests) - 1 && pcs == old(pcs)[g := Dequeuing]
    {
      activeRequests := activeRequests - 1;
      pcs := pcs[g := Dequeuing];
      Record(Action.Release(g));
    }

    /** The select of signalNext: take the front ticket or find the queue empty. */
    method Dequeue(g: nat)
      requires Valid() && g < |pcs| && pcs[g].Dequeuing?
      modifies `queue, `pcs, `states, `acts
      ensures Valid() && Took(Action.Dequeue(g))
      ensures old(queue) == [] ==> queue == [] && pcs == old(pcs)[g := Done]
      ensures old(queue) != [] ==> queue == old(queue)[1..] && pcs == old(pcs)[g := Sending(old(queue)[0])]
    {
      Invariant();
      assert queue != [] ==> View().hist.enqueued[|View().hist.dequeued|] == queue[0];
      assert queue != [] ==> queue[0] < |buffers|;
      hide Inv;
      if queue != [] {
        pcs := pcs[g := Sending(queue[0])];
        queue := queue[1..];
      } else {
        pcs := pcs[g := Done];
      }
      Record(Action.Dequeue(g));
    }

    /** The send on the dequeued ticket. No precondition asks for room in the buffer: there always is. */
    method Send(g: nat)
      requires Valid() && g < |pcs| && pcs[g].Sending?
      modifies `buffers, `pcs, `states, `acts
      ensures Valid() && Took(Action.Send(g))
      ensures old(pcs[g].ticket < |buffers| && buffers[pcs[g].ticket] == 0)
      ensures buffers == old(buffers[pcs[g].ticket := 1]) && pcs == old(pcs)[g := Done]
    {
      SendNeverBlocks(cfg, states, acts, |acts|, g);
      var ticket := pcs[g].ticket;
      buffers := buffers[ticket := buffers[ticket] + 1];
      pcs := pcs[g := Done];
      Record(Action.Send(g));
    }

    /** drainTicket takes the signal that came too late for the waiter. */
    method DrainReceive(g: nat)
      requires Valid() && g < |pcs| && pcs[g].Draining?
      requires pcs[g].ticket < |buffers| && buffers[pcs[g].ticket] > 0
      modifies `buffers, `pcs, `states, `acts
      ensures Valid() && Took(Action.DrainReceive(g))
      ensures buffers == old(buffers[pcs[g].ticket := 0]) && pcs == old(pcs)[g := Drained]
    {
      var ticket := pcs[g].ticket;
      OneSignalAtMost(ticket);
      buffers := buffers[ticket := buffers[ticket] - 1];
      pcs := pcs[g := Drained];
      Record(Action.DrainReceive(g));
    }

    method DrainCountOut(g: nat)
      requires Valid() && g < |pcs| && pcs[g].Drained?
      modifies `queueDepth, `pcs, `states, `acts
      ensures Valid() && Took(Action.DrainCountOut(g))
      ensures queueDepth == old(queueDepth) - 1 && pcs == old(pcs)[g := Dequeuing]
    {
      queueDepth := queueDepth - 1;
      pcs := pcs[g := Dequeuing];
      Record(Action.DrainCountOut(g));
    }

    /** The safety arm of drainTicket. */
    method Expire(g: nat)
      requires Valid() && g < |pcs| && pcs[g].Draining?
      modifies `pcs, `states, `acts
      ensures Valid() && Took(Action.Expire(g))
      ensures pcs == old(pcs)[g := Expired]
    {
      Invariant();
      assert pcs[g].ticket < |buffers|;
      hide Inv;
      pcs := pcs[g := Expired];
      Record(Action.Expire(g));
    }

    method ExpireCountOut(g: nat)
      requires Valid() && g < |pcs| && pcs[g].Expired?
      modifies `queueDepth, `pcs, `states, `acts
      ensures Valid() && Took(Action.ExpireCountOut(g))
      ensures queueDepth == old(queueDepth) - 1 && pcs == old(pcs)[g := Done]
    {
      queueDepth := queueDepth - 1;
      pcs := pcs[g := Done];
      Record(Action.ExpireCountOut(g));
    }

    /** What the /stats handler sees at any moment. */
    method GetStats() returns (active: int, depth: int, limit: nat, capacity: nat)
      requires Valid()
      ensures active == Sum(pcs, Runs) + Sum(pcs, Undoes) && Sum(pcs, RunsDirect) <= limit == cfg.maxConcurrent
      ensures depth == Sum(pcs, CountsInQueue) && |queue| <= capacity == cfg.queueSize
    {
      ActiveAccounting(cfg, states, acts, |acts|);
      QueueAccounting(cfg, states, acts, |acts|);
      return activeRequests, queueDepth, cfg.maxConcurrent, cfg.queueSize;
    }
  }
}
