/**
  Concurrent Allow calls of ratelimiter/token_bucket.go with sweeps between them: when an IP whose bucket is evicted and
  made anew is still answered as by one bucket, and when not.
 */
module DoubleCheckedSweeps {
  import opened Fnv
  import opened TokenBucket
  import opened LimiterTable
  import opened DoubleChecked

  /** The step reads the clock, or uses a reading: consume, the creation of a bucket, and a sweep. */
  predicate Reads(s: State, a: Step)
  {
    a.Take? || a.Sweep? || (a.GetOrCreate? && a.g < |s.gs| && s.gs[a.g].ip !in s.table)
  }

  function Time(a: Step): int
    requires a.Take? || a.Sweep? || a.GetOrCreate?
  {
    if a.Sweep? then a.sweepStart else a.now
  }

  /** No reading of consume or of a creation is behind an earlier reading. A sweep may have read the clock long ago. */
  ghost predicate ClockForward(states: seq<State>, acts: seq<Step>, i: nat)
    requires i <= |acts| && |states| == |acts| + 1
  {
    forall j, k :: 0 <= j < k < i && Reads(states[j], acts[j]) && Reads(states[k], acts[k]) && !acts[k].Sweep? ==>
      Time(acts[j]) <= Time(acts[k])
  }

  /** No goroutine is between its lookup and its consume when the bucket that it has got for ip is evicted. */
  ghost predicate NoneOrphaned(states: seq<State>, acts: seq<Step>, ip: Ip, i: nat)
  {
    forall j: nat :: j < i && EvictedAt(states, acts, j, ip) ==> Unheld(states[j], ip)
  }

  ghost predicate Unheld(s: State, ip: Ip)
  {
    forall g :: 0 <= g < |s.gs| && s.gs[g].Holding? && s.gs[g].ip == ip ==> ip !in s.table || s.gs[g].ref != s.table[ip]
  }

  /** The calls for ip have been answered as by one bucket that was full at the first of them. */
  ghost predicate AsOneBucket(l: Limits, s: State, ip: Ip)
  {
    var times := TimesFor(s.log, ip);
    times != [] ==> AnswersFor(s.log, ip) == Decisions(l, Full(l, times[0]), times)
  }

  // ---- The one bucket that the calls see ----

  /** That bucket, after the calls so far. */
  function Seen(l: Limits, s: State, ip: Ip): Bucket
    requires TimesFor(s.log, ip) != []
  {
    var times := TimesFor(s.log, ip);
    TokenBucket.After(l, Full(l, times[0]), times)
  }

  /** b is new, and v is as good as new. */
  ghost predicate Renewed(l: Limits, v: Bucket, b: Bucket, now: int)
  {
    b == Full(l, b.lastSeen) && b.lastSeen <= now && FullAgainBy(l, v, b.lastSeen)
  }

  /** The bucket in the table, if there is one, cannot be told from the one that the calls have seen. */
  ghost predicate Tracks(l: Limits, s: State, ip: Ip, now: int)
  {
    && AsOneBucket(l, s, ip)
    && (forall g :: 0 <= g < |s.gs| && s.gs[g].Holding? && s.gs[g].ip == ip ==>
          ip in s.table && s.gs[g].ref == s.table[ip])
    && (ip in s.table ==> s.table[ip] < |s.heap|)
    && if TimesFor(s.log, ip) == [] then
         ip in s.table ==> var b := s.heap[s.table[ip]]; b == Full(l, b.lastSeen) && b.lastSeen <= now
       else
         var v := Seen(l, s, ip);
         && WithinBurst(l, v) && v.lastSeen == v.lastRefill <= now
         && if ip in s.table then s.heap[s.table[ip]] == v || Renewed(l, v, s.heap[s.table[ip]], now)
            else FullAgainBy(l, v, now)
  }

  /** A full bucket stays full. */
  lemma FullStaysFull(l: Limits, born: int, now: int)
    requires l.Valid() && born <= now
    ensures Consume(l, Full(l, born), now) == Consume(l, Full(l, now), now)
  {
    GainMonotone(l, 0, now - born);
    assert Gain(l, 0) == 0.0;
  }

  lemma LogMore(log: seq<Entry>, e: Entry, ip: Ip)
    ensures TimesFor(log + [e], ip) == TimesFor(log, ip) + if e.ip == ip then [e.now] else []
    ensures AnswersFor(log + [e], ip) == AnswersFor(log, ip) + if e.ip == ip then [e.ok] else []
  {
    assert (log + [e])[..|log|] == log;
  }

  lemma {:induction false} NoAnswers(log: seq<Entry>, ip: Ip)
    requires TimesFor(log, ip) == []
    ensures AnswersFor(log, ip) == []
  {
    if log != [] {
      NoAnswers(log[..|log| - 1], ip);
    }
  }

  /** What a call does to the bucket that the calls see. */
  lemma TakeSeen(l: Limits, s: State, g: nat, now: int)
    requires Enabled(s, Take(g, now)) && l.Valid()
    requires AsOneBucket(l, s, s.gs[g].ip)
    requires var ip := s.gs[g].ip;
      if TimesFor(s.log, ip) == [] then Consume(l, s.heap[s.gs[g].ref], now) == Consume(l, Full(l, now), now)
      else Consume(l, s.heap[s.gs[g].ref], now) == Consume(l, Seen(l, s, ip), now)
    ensures var r := Next(l, s, Take(g, now));
      var ip := s.gs[g].ip;
      && AsOneBucket(l, r, ip) && TimesFor(r.log, ip) != []
      && Seen(l, r, ip) == r.heap[s.gs[g].ref] == Consume(l, s.heap[s.gs[g].ref], now).0
  {
    hide Consume;
    var ip := s.gs[g].ip;
    var e := Entry(ip, s.gs[g].ref, now, Consume(l, s.heap[s.gs[g].ref], now).1);
    LogMore(s.log, e, ip);
    var times := TimesFor(s.log, ip);
    if times == [] {
      NoAnswers(s.log, ip);
      NothingDecided(l, Full(l, now));
      OneCallMore(l, Full(l, now), [], now);
      assert [] + [now] == [now];
    } else {
      OneCallMore(l, Full(l, times[0]), times, now);
    }
  }

  lemma ConsumedOnTime(l: Limits, b: Bucket, now: int)
    requires l.Valid() && WithinBurst(l, b) && b.lastRefill <= now
    ensures var f := Consume(l, b, now).0;
      WithinBurst(l, f) && f.lastSeen == f.lastRefill == now
  {
    ConsumeBound(l, b, now);
  }

  lemma TakeTracks(l: Limits, s: State, ip: Ip, now: int, g: nat, t: int)
    requires l.Valid() && Tracks(l, s, ip, now) && now <= t && Enabled(s, Take(g, t)) && s.gs[g].ip == ip
    ensures Tracks(l, Next(l, s, Take(g, t)), ip, t)
  {
    hide Consume, Gain, TimesFor, AnswersFor, Decisions, TokenBucket.After;
    var b := s.heap[s.gs[g].ref];
    if TimesFor(s.log, ip) == [] {
      FullStaysFull(l, b.lastSeen, t);
    } else if b != Seen(l, s, ip) {
      FullAgainIsNew(l, Seen(l, s, ip), b.lastSeen, t);
    }
    ConsumedOnTime(l, b, t);
    TakeSeen(l, s, g, t);
  }

  lemma OthersTakeTracks(l: Limits, s: State, ip: Ip, now: int, g: nat, t: int)
    requires l.Valid() && Tracks(l, s, ip, now) && now <= t && Enabled(s, Take(g, t)) && s.gs[g].ip != ip
    requires ip in s.table ==> s.gs[g].ref != s.table[ip]
    ensures Tracks(l, Next(l, s, Take(g, t)), ip, t)
  {
    hide Consume, Gain, TimesFor, AnswersFor, Decisions, TokenBucket.After;
    var (b, ok) := Consume(l, s.heap[s.gs[g].ref], t);
    LogMore(s.log, Entry(s.gs[g].ip, s.gs[g].ref, t, ok), ip);
    assert TimesFor(s.log, ip) + [] == TimesFor(s.log, ip) && AnswersFor(s.log, ip) + [] == AnswersFor(s.log, ip);
    LaterTracks(l, s, ip, now, t);
  }

  /** Time may pass. */
  lemma LaterTracks(l: Limits, s: State, ip: Ip, now: int, later: int)
    requires l.Valid() && Tracks(l, s, ip, now) && now <= later
    ensures Tracks(l, s, ip, later)
  {
    hide Gain, TimesFor, AnswersFor, Decisions, TokenBucket.After;
    if TimesFor(s.log, ip) != [] && ip !in s.table {
      FullAgainLater(l, Seen(l, s, ip), now, later);
    }
  }

  lemma CreateTracks(l: Limits, s: State, ip: Ip, now: int, g: nat, t: int)
    requires l.Valid() && Tracks(l, s, ip, now) && Enabled(s, GetOrCreate(g, t))
    requires Reads(s, GetOrCreate(g, t)) ==> now <= t
    ensures Tracks(l, Next(l, s, GetOrCreate(g, t)), ip, if Reads(s, GetOrCreate(g, t)) then t else now)
  {
    hide Gain, TimesFor, AnswersFor, Decisions, TokenBucket.After;
    if Reads(s, GetOrCreate(g, t)) {
      LaterTracks(l, s, ip, now, t);
    }
  }

  lemma SweepTracks(l: Limits, s: State, ip: Ip, now: int, a: Step, later: int)
    requires l.Valid() && l.burst as real <= Gain(l, IDLE_TIMEOUT + 1)
    requires Tracks(l, s, ip, now) && Enabled(s, a) && a.Sweep? && now <= later && a.sweepStart <= later
    requires Evicts(s, a) && a.victim == ip ==> Unheld(s, ip)
    ensures Tracks(l, Next(l, s, a), ip, later)
  {
    hide Gain, TimesFor, AnswersFor, Decisions, TokenBucket.After;
    LaterTracks(l, s, ip, now, later);
    if Evicts(s, a) && a.victim == ip && TimesFor(s.log, ip) != [] {
      var v, b := Seen(l, s, ip), s.heap[s.table[ip]];
      if b == v {
        IdleIsFullAgain(l, v, a.sweepStart);
        FullAgainLater(l, v, a.sweepStart, later);
      } else {
        FullAgainLater(l, v, b.lastSeen, later);
      }
    }
  }

  /** The latest reading among the first i steps, or start. */
  function Latest(states: seq<State>, acts: seq<Step>, start: int, i: nat): int
    requires i <= |acts| && |states| == |acts| + 1
  {
    if i == 0 then start
    else
      var m := Latest(states, acts, start, i - 1);
      if Reads(states[i - 1], acts[i - 1]) && m < Time(acts[i - 1]) then Time(acts[i - 1]) else m
  }

  lemma {:induction false} LatestIsReached(states: seq<State>, acts: seq<Step>, start: int, i: nat, bound: int)
    requires i <= |acts| && |states| == |acts| + 1 && start <= bound
    requires forall j :: 0 <= j < i && Reads(states[j], acts[j]) ==> Time(acts[j]) <= bound
    ensures Latest(states, acts, start, i) <= bound
  {
    if i > 0 {
      LatestIsReached(states, acts, start, i - 1, bound);
    }
  }

  /** A time before all readings. */
  lemma {:induction false} Earliest(states: seq<State>, acts: seq<Step>, i: nat) returns (start: int)
    requires i <= |acts| && |states| == |acts| + 1
    ensures forall j :: 0 <= j < i && Reads(states[j], acts[j]) ==> start <= Time(acts[j])
  {
    start := 0;
    if i > 0 {
      start := Earliest(states, acts, i - 1);
      if Reads(states[i - 1], acts[i - 1]) && Time(acts[i - 1]) < start {
        start := Time(acts[i - 1]);
      }
    }
  }

  lemma StepTracks(l: Limits, states: seq<State>, acts: seq<Step>, ip: Ip, i: nat, now: int, later: int)
    requires l.Valid() && l.burst as real <= Gain(l, IDLE_TIMEOUT + 1)
    requires IsRun(l, states, acts) && i < |acts|
    requires EvictedAt(states, acts, i, ip) ==> Unheld(states[i], ip)
    requires Tracks(l, states[i], ip, now)
    requires if Reads(states[i], acts[i]) then
               now <= later && Time(acts[i]) <= later && (!acts[i].Sweep? ==> Time(acts[i]) == later)
             else later == now
    ensures Tracks(l, states[i + 1], ip, later)
  {
    hide Tracks, Consume, Gain;
    var s, a := states[i], acts[i];
    match a
    case Take(g, t) =>
      if s.gs[g].ip == ip {
        TakeTracks(l, s, ip, now, g, t);
      } else {
        if ip in s.table && s.gs[g].ref == s.table[ip] {
          assert Known(s, ip, s.table[ip]);
          assert Got(s.gs[g], s.gs[g].ip);
          assert Known(s, s.gs[g].ip, s.gs[g].ref);
          BucketsAreNotMixed(l, states, acts, i, ip, s.gs[g].ip, s.table[ip]);
        }
        OthersTakeTracks(l, s, ip, now, g, t);
      }
    case GetOrCreate(g, t) => CreateTracks(l, s, ip, now, g, t);
    case Sweep(_, _) => SweepTracks(l, s, ip, now, a, later);
    case _ => LookingTracks(l, s, ip, now, a);
  }

  lemma LookingTracks(l: Limits, s: State, ip: Ip, now: int, a: Step)
    requires Tracks(l, s, ip, now) && Enabled(s, a) && (a.Start? || a.Lookup?)
    ensures Tracks(l, Next(l, s, a), ip, now)
  {
    hide Gain, TimesFor, AnswersFor, Decisions, TokenBucket.After;
  }

  lemma {:induction false} RunTracks(l: Limits, states: seq<State>, acts: seq<Step>, ip: Ip, i: nat, start: int)
    requires l.Valid() && l.burst as real <= Gain(l, IDLE_TIMEOUT + 1)
    requires IsRun(l, states, acts) && i <= |acts| && ClockForward(states, acts, i) && NoneOrphaned(states, acts, ip, i)
    requires forall j :: 0 <= j < i && Reads(states[j], acts[j]) ==> start <= Time(acts[j])
    ensures Tracks(l, states[i], ip, Latest(states, acts, start, i))
  {
    hide Gain, Unheld, Evicts, Next;
    if i > 0 {
      RunTracks(l, states, acts, ip, i - 1, start);
      var now := Latest(states, acts, start, i - 1);
      if Reads(states[i - 1], acts[i - 1]) && !acts[i - 1].Sweep? {
        LatestIsReached(states, acts, start, i - 1, Time(acts[i - 1]));
      }
      hide Tracks;
      StepTracks(l, states, acts, ip, i - 1, now, Latest(states, acts, start, i));
    }
  }

  /**
    Sweeps are harmless to concurrent calls: if a bucket refills within the idle timeout, the clock does not step back,
    and no goroutine holds the bucket of ip between its lookup and its consume while it is evicted, then the calls for
    ip are answered, in the order of their consumes, as by one bucket that was full at the first of them, however
    often the object was evicted and made anew.
   */
  lemma SweepsAreHarmless(l: Limits, states: seq<State>, acts: seq<Step>, ip: Ip, i: nat)
    requires l.Valid() && l.burst as real <= Gain(l, IDLE_TIMEOUT + 1)
    requires IsRun(l, states, acts) && i <= |acts| && ClockForward(states, acts, i) && NoneOrphaned(states, acts, ip, i)
    ensures AsOneBucket(l, states[i], ip)
  {
    hide ClockForward, NoneOrphaned, Gain, AsOneBucket;
    var start := Earliest(states, acts, i);
    RunTracks(l, states, acts, ip, i, start);
  }
}
