/**
  What concurrent Allow calls of ratelimiter/token_bucket.go do not guarantee, by constructed runs, and that the
  hypotheses of module DoubleCheckedSweeps cannot be dropped.
 */
module DoubleCheckedLimits {
  import opened Fnv
  import opened TokenBucket
  import opened LimiterTable
  import opened DoubleChecked
  import opened DoubleCheckedSweeps

  /** A run that ends in s, with no clock reading after `now`; if it is clean, no bucket is orphaned in it. */
  ghost predicate RunTo(l: Limits, states: seq<State>, acts: seq<Step>, s: State, now: int, clean: bool)
  {
    && IsRun(l, states, acts) && states[|acts|] == s
    && ClockForward(states, acts, |acts|)
    && (forall j :: 0 <= j < |acts| && Reads(states[j], acts[j]) ==> Time(acts[j]) <= now)
    && (clean ==> NoneOrphaned(states, acts, [], |acts|))
  }

  ghost predicate Reachable(l: Limits, s: State, now: int, clean: bool)
  {
    exists states, acts :: RunTo(l, states, acts, s, now, clean)
  }

  lemma Begin(l: Limits, now: int, clean: bool)
    ensures Reachable(l, Init(), now, clean)
  {
    assert RunTo(l, [Init()], [], Init(), now, clean);
  }

  lemma Extend(l: Limits, s: State, a: Step, now: int, clean: bool) returns (r: State)
    requires Reachable(l, s, now, clean) && Enabled(s, a)
    requires Reads(s, a) ==> now <= Time(a)
    requires clean && Evicts(s, a) && a.victim == [] ==> Unheld(s, [])
    ensures r == Next(l, s, a) && Reachable(l, r, if Reads(s, a) then Time(a) else now, clean)
  {
    hide Consume, Unheld;
    r := Next(l, s, a);
    var states, acts :| RunTo(l, states, acts, s, now, clean);
    var states', acts' := states + [r], acts + [a];
    forall j: nat | EvictedAt(states', acts', j, [])
      ensures j == |acts| || EvictedAt(states, acts, j, [])
    {
    }
    assert RunTo(l, states', acts', r, if Reads(s, a) then Time(a) else now, clean);
  }

  function Repeat(now: int, k: nat): (times: seq<int>)
    ensures |times| == k && forall i :: 0 <= i < k ==> times[i] == now
  {
    seq(k, _ => now)
  }

  /** s has n calls more in its log than before, all for IP [] at time now, and all allowed. */
  ghost predicate Allows(before: State, s: State, n: nat, now: int)
  {
    && Allowed(AnswersFor(s.log, [])) == Allowed(AnswersFor(before.log, [])) + n
    && TimesFor(s.log, []) == TimesFor(before.log, []) + Repeat(now, n)
  }

  lemma AllowsOneMore(before: State, s: State, r: State, n: nat, now: int, ref: nat)
    requires Allows(before, s, n, now) && r.log == s.log + [Entry([], ref, now, true)]
    ensures Allows(before, r, n + 1, now)
  {
    LogMore(s.log, Entry([], ref, now, true), []);
    var answers := AnswersFor(s.log, []);
    assert (answers + [true])[..|answers|] == answers;
  }

  /** A goroutine looks up the bucket of IP [], which is there, and consumes. */
  lemma CallOnce(l: Limits, s: State, now: int, clean: bool, k: nat) returns (r: State)
    requires Reachable(l, s, now, clean) && [] in s.table && s.table[[]] < |s.heap| && k < l.burst
    requires s.heap[s.table[[]]] == Bucket(l.burst as real - k as real, now, now)
    ensures Reachable(l, r, now, clean)
    ensures var ref := s.table[[]];
      r == s.(heap := s.heap[ref := Bucket(l.burst as real - (k + 1) as real, now, now)],
              gs := s.gs + [Answered([], ref)], log := s.log + [Entry([], ref, now, true)])
  {
    hide Consume, Reachable;
    var g := |s.gs|;
    r := Extend(l, s, Start([]), now, clean);
    r := Extend(l, r, Lookup(g), now, clean);
    assert r.gs == s.gs + [Holding([], s.table[[]])];
    FreshCall(l, now, k);
    r := Extend(l, r, Take(g, now), now, clean);
    assert r.gs == s.gs + [Answered([], s.table[[]])];
  }

  predicate NobodyHolds(gs: seq<Pc>) { forall g :: 0 <= g < |gs| ==> !gs[g].Holding? }

  /** The calls k + 1 to burst of a bucket, all at one instant. */
  lemma {:induction false} RestOfBurst(l: Limits, s: State, now: int, clean: bool, k: nat) returns (r: State)
    requires Reachable(l, s, now, clean) && [] in s.table && s.table[[]] < |s.heap| && k <= l.burst
    requires s.heap[s.table[[]]] == Bucket(l.burst as real - k as real, now, now)
    ensures Reachable(l, r, now, clean) && r.table == s.table && r.births == s.births
    ensures r.heap == s.heap[s.table[[]] := Bucket(0.0, now, now)]
    ensures Allows(s, r, l.burst - k, now)
    ensures s.gs <= r.gs && (NobodyHolds(s.gs) ==> NobodyHolds(r.gs))
    decreases l.burst - k
  {
    hide Reachable;
    if k == l.burst {
      r := s;
      assert TimesFor(s.log, []) + Repeat(now, 0) == TimesFor(s.log, []);
    } else {
      hide Consume, Allowed, AnswersFor, TimesFor;
      var t := CallOnce(l, s, now, clean, k);
      r := RestOfBurst(l, t, now, clean, k + 1);
      FirstOfBurst(s, t, r, l.burst - k - 1, now, s.table[[]]);
    }
  }

  lemma FirstOfBurst(s: State, t: State, r: State, n: nat, now: int, ref: nat)
    requires t.log == s.log + [Entry([], ref, now, true)] && Allows(t, r, n, now)
    ensures Allows(s, r, n + 1, now)
  {
    assert Allows(s, s, 0, now) by {
      assert TimesFor(s.log, []) + Repeat(now, 0) == TimesFor(s.log, []);
    }
    AllowsOneMore(s, s, t, 0, now, ref);
    assert Repeat(now, 1) + Repeat(now, n) == Repeat(now, n + 1);
    hide Allowed, AnswersFor, TimesFor;
    assert TimesFor(s.log, []) + Repeat(now, 1) + Repeat(now, n)
        == TimesFor(s.log, []) + (Repeat(now, 1) + Repeat(now, n));
  }

  /** A goroutine finds no bucket for IP [], creates one at time now, and holds it. */
  lemma Create(l: Limits, s: State, now: int, clean: bool) returns (r: State)
    requires Reachable(l, s, now, clean) && [] !in s.table
    ensures Reachable(l, r, now, clean)
    ensures r == s.(table := s.table[[] := |s.heap|], heap := s.heap + [Full(l, now)], births := s.births + [now],
                    gs := s.gs + [Holding([], |s.heap|)])
  {
    hide Consume, Reachable;
    var g := |s.gs|;
    r := Extend(l, s, Start([]), now, clean);
    r := Extend(l, r, Lookup(g), now, clean);
    r := Extend(l, r, GetOrCreate(g, now), now, clean);
    assert r.gs == s.gs + [Holding([], |s.heap|)];
  }

  /** An IP without a bucket gets its whole burst at one instant. */
  lemma WholeBurst(l: Limits, s: State, now: int, clean: bool) returns (r: State)
    requires l.Valid() && Reachable(l, s, now, clean) && [] !in s.table
    ensures Reachable(l, r, now, clean) && r.table == s.table[[] := |s.heap|]
    ensures r.heap == s.heap + [Bucket(0.0, now, now)] && Allows(s, r, l.burst, now)
    ensures s.gs <= r.gs && (NobodyHolds(s.gs) ==> NobodyHolds(r.gs))
  {
    hide Consume, Reachable, Allowed, AnswersFor, TimesFor;
    var t := Create(l, s, now, clean);
    var g := |s.gs|;
    FreshCall(l, now, 0);
    var u := Extend(l, t, Take(g, now), now, clean);
    assert u.gs == s.gs + [Answered([], |s.heap|)];
    assert u.heap == s.heap + [Bucket(l.burst as real - 1.0, now, now)];
    r := RestOfBurst(l, u, now, clean, 1);
    FirstOfBurst(s, u, r, l.burst - 1, now, |s.heap|);
  }

  lemma ConsumeAtInstant(l: Limits, b: Bucket, now: int)
    requires l.Valid() && WithinBurst(l, b)
    ensures var (f, ok) := Consume(l, b, now);
      && WithinBurst(l, f) && f.lastRefill >= now
      && f.tokens + TokenBucket.Bit(ok) as real <= l.burst as real
      && (b.lastRefill >= now ==> f.tokens + TokenBucket.Bit(ok) as real == b.tokens)
  {
    ConsumeBound(l, b, now);
  }

  /** Any bucket, however full, allows at most its burst at one instant. */
  lemma {:induction false} OneInstant(l: Limits, b: Bucket, times: seq<int>, now: int)
    requires l.Valid() && WithinBurst(l, b) && forall i :: 0 <= i < |times| ==> times[i] == now
    ensures var f := TokenBucket.After(l, b, times);
      && WithinBurst(l, f) && (times != [] ==> f.lastRefill >= now)
      && f.tokens + Allowed(Decisions(l, b, times)) as real <= l.burst as real
  {
    hide Consume, Gain;
    if times != [] {
      var n := |times| - 1;
      OneInstant(l, b, times[..n], now);
      ConsumeAtInstant(l, TokenBucket.After(l, b, times[..n]), now);
      assert Decisions(l, b, times)[..n] == Decisions(l, b, times[..n]);
    }
  }

  /**
    With an eviction between the lookup and the consume of a call the calls for an IP need not look like those of one
    bucket, whatever the limits: the orphaned bucket and the new one let burst + 1 calls through at one instant, which
    no bucket of this burst does.
   */
  lemma OrphanedBucket(l: Limits) returns (states: seq<State>, acts: seq<Step>)
    requires l.Valid()
    ensures IsRun(l, states, acts) && ClockForward(states, acts, |acts|)
    ensures var log := states[|acts|].log;
      && Allowed(AnswersFor(log, [])) == l.burst + 1
      && (forall t :: t in TimesFor(log, []) ==> t == IDLE_TIMEOUT + 1)
      && (forall b :: WithinBurst(l, b) ==> AnswersFor(log, []) != Decisions(l, b, TimesFor(log, [])))
  {
    hide Consume, Reachable, Allowed, AnswersFor, TimesFor, Decisions;
    var now := IDLE_TIMEOUT + 1;
    Begin(l, 0, false);
    var s := Create(l, Init(), 0, false);
    var t := Extend(l, s, Sweep([], now), 0, false);
    assert t.table == map[];
    var u := WholeBurst(l, t, now, false);
    assert u.gs[0] == Holding([], 0) && u.heap[0] == Full(l, 0);
    assert Consume(l, Full(l, 0), now).1 by { FullAllows(l, 0, now); }
    var r := Extend(l, u, Take(0, now), now, false);
    AllowsOneMore(t, u, r, l.burst, now, 0);
    NothingLogged();
    forall b | WithinBurst(l, b)
      ensures AnswersFor(r.log, []) != Decisions(l, b, TimesFor(r.log, []))
    {
      forall i | 0 <= i < |TimesFor(r.log, [])|
        ensures TimesFor(r.log, [])[i] == now
      {
        assert TimesFor(r.log, [])[i] in TimesFor(r.log, []);
      }
      OneInstant(l, b, TimesFor(r.log, []), now);
    }
    states, acts := Witness(l, r, now, false);
  }

  lemma FullAllows(l: Limits, born: int, now: int)
    requires l.Valid() && born <= now
    ensures Consume(l, Full(l, born), now).1
  {
    FullStaysFull(l, born, now);
  }

  lemma NothingLogged()
    ensures Allowed(AnswersFor([], [])) == 0 && TimesFor([], []) == []
  {
  }

  lemma Witness(l: Limits, s: State, now: int, clean: bool) returns (states: seq<State>, acts: seq<Step>)
    requires Reachable(l, s, now, clean)
    ensures RunTo(l, states, acts, s, now, clean)
  {
    states, acts :| RunTo(l, states, acts, s, now, clean);
  }

  /** A burst, a sweep at the first moment at which the bucket counts as idle, and another burst. */
  lemma TwoBursts(l: Limits) returns (states: seq<State>, acts: seq<Step>)
    requires l.Valid()
    ensures IsRun(l, states, acts) && ClockForward(states, acts, |acts|) && NoneOrphaned(states, acts, [], |acts|)
    ensures var log := states[|acts|].log;
      && Allowed(AnswersFor(log, [])) == 2 * l.burst
      && TimesFor(log, []) == Repeat(0, l.burst) + Repeat(IDLE_TIMEOUT + 1, l.burst)
  {
    hide Consume, Reachable, Allowed, AnswersFor, TimesFor;
    var now := IDLE_TIMEOUT + 1;
    Begin(l, 0, true);
    var s := WholeBurst(l, Init(), 0, true);
    var t := Extend(l, s, Sweep([], now), 0, true);
    assert t.table == map[];
    var r := WholeBurst(l, t, now, true);
    NothingLogged();
    assert [] + Repeat(0, l.burst) == Repeat(0, l.burst);
    states, acts := Witness(l, r, now, true);
  }

  /** One bucket cannot have done that if it does not refill meanwhile. */
  lemma TwoBurstsAreTooMany(l: Limits, times: seq<int>, now: int)
    requires l.Valid() && 0 <= now && l.burst as real > Gain(l, now)
    requires times == Repeat(0, l.burst) + Repeat(now, l.burst)
    ensures Allowed(Decisions(l, Full(l, 0), times)) < 2 * l.burst
  {
    hide Gain, Decisions, TokenBucket.After, Allowed;
    AnyClockGain(l, Full(l, 0), times);
    var f := TokenBucket.After(l, Full(l, 0), times);
    assert forall t :: t in times ==> t <= now;
    GainMonotone(l, f.lastRefill, now);
  }

  /**
    The condition on the limits is exact: calls that race with sweeps which orphan no bucket are answered as by one
    bucket in every run if and only if a bucket refills within five minutes (and the nanosecond that exceeds them).
   */
  lemma SweepsAreHarmlessIff(l: Limits)
    requires l.Valid()
    ensures (forall states, acts, ip ::
               IsRun(l, states, acts) && ClockForward(states, acts, |acts|) && NoneOrphaned(states, acts, ip, |acts|)
               ==> AsOneBucket(l, states[|acts|], ip))
       <==> l.burst as real <= 300_000_000_001.0 * l.ratePerNano
  {
    hide ClockForward, NoneOrphaned, AsOneBucket, Gain;
    GainOfTimeout(l);
    if l.burst as real <= Gain(l, IDLE_TIMEOUT + 1) {
      forall states, acts, ip
        | IsRun(l, states, acts) && ClockForward(states, acts, |acts|) && NoneOrphaned(states, acts, ip, |acts|)
        ensures AsOneBucket(l, states[|acts|], ip)
      {
        SweepsAreHarmless(l, states, acts, ip, |acts|);
      }
    } else {
      var states, acts := TwoBursts(l);
      NotAsOneBucket(l, states[|acts|]);
    }
  }

  lemma NotAsOneBucket(l: Limits, s: State)
    requires l.Valid() && l.burst as real > Gain(l, IDLE_TIMEOUT + 1)
    requires Allowed(AnswersFor(s.log, [])) == 2 * l.burst
    requires TimesFor(s.log, []) == Repeat(0, l.burst) + Repeat(IDLE_TIMEOUT + 1, l.burst)
    ensures !AsOneBucket(l, s, [])
  {
    hide Gain, Decisions, Allowed, AnswersFor, TimesFor;
    TwoBurstsAreTooMany(l, TimesFor(s.log, []), IDLE_TIMEOUT + 1);
  }
}
