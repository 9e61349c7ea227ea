/**
  The limiter of ratelimiter/token_bucket.go as one map from IP to bucket, and what it decides over any sequence of
  complete Allow calls and evictions. The sharded objects of module Limiters refine this map.
 */
module LimiterTable {
  import opened Fnv
  import opened TokenBucket

  type Table = map<Ip, Bucket>

  /** bucketIdleTimeout: five minutes in nanoseconds. */
  const IDLE_TIMEOUT: int := 300_000_000_000

  /**
    Call: one Allow, which reads the clock once if it has to create the bucket and once more to consume.
    Evict: a second phase of a sweep that read the clock at sweepStart; the first phase may have collected any ips.
   */
  datatype Event =
    | Call(ip: Ip, created: int, now: int)
    | Evict(sweepStart: int, ips: set<Ip>)

  function BucketFor(l: Limits, table: Table, ip: Ip, created: int): Bucket
  {
    if ip in table then table[ip] else Full(l, created)
  }

  function Allow(l: Limits, table: Table, ip: Ip, created: int, now: int): (Table, bool)
  {
    var (b, ok) := Consume(l, BucketFor(l, table, ip, created), now);
    (table[ip := b], ok)
  }

  /** Deletes the candidates that are still idle when looked at again. */
  function Purge(table: Table, sweepStart: int, ips: set<Ip>): Table
  {
    map ip | ip in table && !(ip in ips && table[ip].lastSeen < sweepStart - IDLE_TIMEOUT) :: table[ip]
  }

  function Apply(l: Limits, table: Table, e: Event): Table
  {
    match e
    case Call(ip, created, now) => Allow(l, table, ip, created, now).0
    case Evict(sweepStart, ips) => Purge(table, sweepStart, ips)
  }

  function TableAfter(l: Limits, evs: seq<Event>): Table
  {
    if evs == [] then map[] else Apply(l, TableAfter(l, evs[..|evs| - 1]), evs[|evs| - 1])
  }

  /** The answer to each Allow call for which `keep` holds, in order. */
  function Answers(l: Limits, evs: seq<Event>, keep: Event -> bool): seq<bool>
  {
    if evs == [] then []
    else
      var n := |evs| - 1;
      var e := evs[n];
      Answers(l, evs[..n], keep) +
      if e.Call? && keep(e) then [Allow(l, TableAfter(l, evs[..n]), e.ip, e.created, e.now).1] else []
  }

  function Filter(evs: seq<Event>, keep: Event -> bool): seq<Event>
  {
    if evs == [] then []
    else
      var n := |evs| - 1;
      Filter(evs[..n], keep) + if keep(evs[n]) then [evs[n]] else []
  }

  function IsCall(e: Event): bool { e.Call? }

  function Concerns(ip: Ip): Event -> bool { (e: Event) => e.Evict? || e.ip == ip }

  // ---- Calls for one IP never affect another ----

  /** The events of other IPs can be deleted: what remains of the table for ip and its answers stay the same. */
  lemma {:induction false} Isolation(l: Limits, evs: seq<Event>, ip: Ip)
    ensures var own := Filter(evs, Concerns(ip));
      && Answers(l, evs, Concerns(ip)) == Answers(l, own, Concerns(ip))
      && (ip in TableAfter(l, evs) <==> ip in TableAfter(l, own))
      && (ip in TableAfter(l, evs) ==> TableAfter(l, evs)[ip] == TableAfter(l, own)[ip])
  {
    if evs != [] {
      var n := |evs| - 1;
      var own := Filter(evs, Concerns(ip));
      Isolation(l, evs[..n], ip);
      if Concerns(ip)(evs[n]) {
        assert own[..|own| - 1] == Filter(evs[..n], Concerns(ip));
      } else {
        assert own == Filter(evs[..n], Concerns(ip));
      }
    }
  }

  function TimesOf(evs: seq<Event>, ip: Ip): seq<int>
  {
    if evs == [] then []
    else
      var n := |evs| - 1;
      TimesOf(evs[..n], ip) + if evs[n].Call? && evs[n].ip == ip then [evs[n].now] else []
  }

  /** When the bucket of ip was created, if any call for ip has been made. */
  function CreationOf(evs: seq<Event>, ip: Ip): int
  {
    if evs == [] then 0
    else
      var n := |evs| - 1;
      if TimesOf(evs[..n], ip) == [] && evs[n].Call? && evs[n].ip == ip then evs[n].created
      else CreationOf(evs[..n], ip)
  }

  /** Without evictions, each IP has a bucket of its own that was full at its first call. */
  lemma {:induction false} OneBucketPerIp(l: Limits, evs: seq<Event>, ip: Ip)
    requires forall e :: e in evs ==> e.Call?
    ensures var b := Full(l, CreationOf(evs, ip));
      && Answers(l, evs, Concerns(ip)) == Decisions(l, b, TimesOf(evs, ip))
      && (ip in TableAfter(l, evs) <==> TimesOf(evs, ip) != [])
      && (ip in TableAfter(l, evs) ==> TableAfter(l, evs)[ip] == TokenBucket.After(l, b, TimesOf(evs, ip)))
  {
    if evs != [] {
      var n := |evs| - 1;
      OneBucketPerIp(l, evs[..n], ip);
      var times := TimesOf(evs, ip);
      if evs[n].ip == ip {
        assert times[..|times| - 1] == TimesOf(evs[..n], ip);
      } else {
        assert times == TimesOf(evs[..n], ip);
      }
    }
  }

  // ---- Events under different locks ----

  /** Two calls for different IPs, or a call and an eviction that does not consider its IP. */
  predicate Unrelated(e: Event, f: Event)
  {
    match (e, f)
    case (Call(a, _, _), Call(b, _, _)) => a != b
    case (Call(a, _, _), Evict(_, ips)) => a !in ips
    case (Evict(_, ips), Call(b, _, _)) => b !in ips
    case (Evict(_, _), Evict(_, _)) => true
  }

  lemma UnrelatedCommute(l: Limits, t: Table, e: Event, f: Event)
    requires Unrelated(e, f)
    ensures Apply(l, Apply(l, t, e), f) == Apply(l, Apply(l, t, f), e)
    ensures e.Call? ==> BucketFor(l, Apply(l, t, f), e.ip, e.created) == BucketFor(l, t, e.ip, e.created)
    ensures f.Call? ==> BucketFor(l, Apply(l, t, e), f.ip, f.created) == BucketFor(l, t, f.ip, f.created)
  {
    hide Consume;
    assert Apply(l, Apply(l, t, e), f) == Apply(l, Apply(l, t, f), e);
  }

  /** What an event adds to the answers of ip. */
  function AnswerAt(l: Limits, t: Table, e: Event, ip: Ip): seq<bool>
  {
    if e.Call? && Concerns(ip)(e) then [Allow(l, t, e.ip, e.created, e.now).1] else []
  }

  lemma OneMoreEvent(l: Limits, evs: seq<Event>, e: Event, ip: Ip)
    ensures TableAfter(l, evs + [e]) == Apply(l, TableAfter(l, evs), e)
    ensures Answers(l, evs + [e], Concerns(ip))
         == Answers(l, evs, Concerns(ip)) + AnswerAt(l, TableAfter(l, evs), e, ip)
  {
    assert (evs + [e])[..|evs|] == evs;
  }

  /**
    Two neighbouring events that hold different locks can be swapped: all answers to all IPs and the table stay the
    same. So calls that run while a sweep holds the lock of another shard may be taken to come before or after it.
   */
  lemma {:induction false} SwapUnrelated(l: Limits, before: seq<Event>, e: Event, f: Event, after: seq<Event>, ip: Ip)
    requires Unrelated(e, f)
    ensures TableAfter(l, before + [e] + [f] + after) == TableAfter(l, before + [f] + [e] + after)
    ensures Answers(l, before + [e] + [f] + after, Concerns(ip)) == Answers(l, before + [f] + [e] + after, Concerns(ip))
    decreases |after|
  {
    hide TableAfter, Answers, Apply, BucketFor;
    var ef, fe := before + [e] + [f], before + [f] + [e];
    if after == [] {
      UnrelatedCommute(l, TableAfter(l, before), e, f);
      OneMoreEvent(l, before, e, ip);
      OneMoreEvent(l, before + [e], f, ip);
      OneMoreEvent(l, before, f, ip);
      OneMoreEvent(l, before + [f], e, ip);
      assert ef + [] == ef && fe + [] == fe;
    } else {
      var n := |after| - 1;
      SwapUnrelated(l, before, e, f, after[..n], ip);
      OneMoreEvent(l, ef + after[..n], after[n], ip);
      OneMoreEvent(l, fe + after[..n], after[n], ip);
      assert ef + after == ef + after[..n] + [after[n]] && fe + after == fe + after[..n] + [after[n]];
    }
  }

  // ---- Eviction ----

  /** The latest clock reading of an event. */
  function Clock(e: Event): int { if e.Call? then e.now else e.sweepStart }

  /** No call reads a clock that is behind what it or an earlier event has read. */
  ghost predicate ClockNeverBack(evs: seq<Event>)
  {
    && (forall j :: 0 <= j < |evs| && evs[j].Call? ==> evs[j].created <= evs[j].now)
    && (forall i, j :: 0 <= i < j < |evs| && evs[j].Call? ==> Clock(evs[i]) <= evs[j].created)
  }

  /** From now on the bucket is as good as a new one. */
  ghost predicate FullAgainBy(l: Limits, b: Bucket, now: int)
  {
    b.lastRefill < now && b.tokens + Gain(l, now - b.lastRefill) >= l.burst as real
  }

  /**
    The table with evictions against the one without: the same buckets, except for evicted ones, which are full again.
   */
  ghost predicate Matches(l: Limits, evicting: Table, keeping: Table, now: int)
  {
    && (forall ip :: ip in keeping ==>
          && WithinBurst(l, keeping[ip])
          && keeping[ip].lastSeen == keeping[ip].lastRefill <= now)
    && (forall ip :: ip in evicting ==> ip in keeping && evicting[ip] == keeping[ip])
    && (forall ip :: ip in keeping && ip !in evicting ==> FullAgainBy(l, keeping[ip], now))
  }

  lemma FullAgainLater(l: Limits, b: Bucket, now: int, later: int)
    requires l.Valid() && FullAgainBy(l, b, now) && now <= later
    ensures FullAgainBy(l, b, later)
  {
    GainMonotone(l, now - b.lastRefill, later - b.lastRefill);
  }

  /** A bucket that is full again answers as a bucket just created, and is left in the same state. */
  lemma FullAgainIsNew(l: Limits, b: Bucket, created: int, now: int)
    requires l.Valid() && FullAgainBy(l, b, created) && created <= now
    ensures Consume(l, b, now) == Consume(l, Full(l, created), now)
  {
    FullAgainLater(l, b, created, now);
    GainMonotone(l, 0, now - created);
    assert Gain(l, 0) == 0.0;
  }

  lemma IdleIsFullAgain(l: Limits, b: Bucket, sweepStart: int)
    requires l.Valid() && WithinBurst(l, b) && l.burst as real <= Gain(l, IDLE_TIMEOUT + 1)
    requires b.lastRefill < sweepStart - IDLE_TIMEOUT
    ensures FullAgainBy(l, b, sweepStart)
  {
    GainMonotone(l, IDLE_TIMEOUT + 1, sweepStart - b.lastRefill);
  }

  lemma CallMatches(l: Limits, evicting: Table, keeping: Table, now: int, e: Event)
    requires l.Valid() && Matches(l, evicting, keeping, now) && e.Call? && now <= e.created <= e.now
    ensures Allow(l, evicting, e.ip, e.created, e.now).1 == Allow(l, keeping, e.ip, e.created, e.now).1
    ensures Matches(l, Apply(l, evicting, e), Apply(l, keeping, e), e.now)
  {
    var b := BucketFor(l, keeping, e.ip, e.created);
    ConsumeBound(l, b, e.now);
    if e.ip in keeping && e.ip !in evicting {
      FullAgainLater(l, keeping[e.ip], now, e.created);
      FullAgainIsNew(l, keeping[e.ip], e.created, e.now);
    }
    forall ip | ip in keeping && ip !in evicting && ip != e.ip
      ensures FullAgainBy(l, keeping[ip], e.now)
    {
      FullAgainLater(l, keeping[ip], now, e.now);
    }
  }

  lemma EvictMatches(l: Limits, evicting: Table, keeping: Table, now: int, e: Event, later: int)
    requires l.Valid() && l.burst as real <= Gain(l, IDLE_TIMEOUT + 1)
    requires Matches(l, evicting, keeping, now) && e.Evict? && now <= later && e.sweepStart <= later
    ensures Matches(l, Apply(l, evicting, e), keeping, later)
  {
    var purged := Apply(l, evicting, e);
    forall ip | ip in keeping && ip !in purged
      ensures FullAgainBy(l, keeping[ip], later)
    {
      if ip in evicting {
        IdleIsFullAgain(l, keeping[ip], e.sweepStart);
        FullAgainLater(l, keeping[ip], e.sweepStart, later);
      } else {
        FullAgainLater(l, keeping[ip], now, later);
      }
    }
  }

  function MaxClock(start: int, evs: seq<Event>): int
  {
    if evs == [] then start
    else
      var m := MaxClock(start, evs[..|evs| - 1]);
      if m < Clock(evs[|evs| - 1]) then Clock(evs[|evs| - 1]) else m
  }

  lemma {:induction false} MaxClockIsReached(start: int, evs: seq<Event>, bound: int)
    requires start <= bound && forall i :: 0 <= i < |evs| ==> Clock(evs[i]) <= bound
    ensures MaxClock(start, evs) <= bound
  {
    if evs != [] {
      MaxClockIsReached(start, evs[..|evs| - 1], bound);
    }
  }

  function AnyCall(e: Event): bool { true }

  /** The calls of a run with sweeps, answered as if nothing were ever evicted. */
  lemma {:induction false} EvictionUnobservable(l: Limits, evs: seq<Event>, start: int, keep: Event -> bool)
    requires l.Valid() && l.burst as real <= Gain(l, IDLE_TIMEOUT + 1)
    requires ClockNeverBack(evs) && forall e :: e in evs && e.Call? ==> start <= e.created
    ensures Answers(l, evs, keep) == Answers(l, Filter(evs, IsCall), keep)
    ensures Matches(l, TableAfter(l, evs), TableAfter(l, Filter(evs, IsCall)), MaxClock(start, evs))
  {
    if evs != [] {
      var n := |evs| - 1;
      var e := evs[n];
      var calls := Filter(evs, IsCall);
      EvictionUnobservable(l, evs[..n], start, keep);
      var now := MaxClock(start, evs[..n]);
      if e.Call? {
        assert calls[..|calls| - 1] == Filter(evs[..n], IsCall);
        MaxClockIsReached(start, evs[..n], e.created);
        CallMatches(l, TableAfter(l, evs[..n]), TableAfter(l, Filter(evs[..n], IsCall)), now, e);
      } else {
        assert calls == Filter(evs[..n], IsCall);
        EvictMatches(l, TableAfter(l, evs[..n]), TableAfter(l, calls), now, e, MaxClock(start, evs));
      }
    }
  }

  lemma {:induction false} EarliestCreation(evs: seq<Event>) returns (start: int)
    ensures forall e :: e in evs && e.Call? ==> start <= e.created
  {
    if evs == [] {
      start := 0;
    } else {
      var n := |evs| - 1;
      start := EarliestCreation(evs[..n]);
      if evs[n].Call? && evs[n].created < start {
        start := evs[n].created;
      }
    }
  }

  lemma {:induction false} FilterKeepsCalls(evs: seq<Event>)
    ensures forall e :: e in Filter(evs, IsCall) ==> e.Call?
  {
    if evs != [] {
      FilterKeepsCalls(evs[..|evs| - 1]);
    }
  }

  /**
    The whole limiter in one sentence: however sweeps and the calls of other IPs are interleaved, an IP is answered
    as by a single bucket of its own that was full at its first call and is never evicted.
   */
  lemma EachIpSeesItsOwnBucket(l: Limits, evs: seq<Event>, ip: Ip)
    requires l.Valid() && l.burst as real <= Gain(l, IDLE_TIMEOUT + 1) && ClockNeverBack(evs)
    ensures var calls := Filter(evs, IsCall);
      Answers(l, evs, Concerns(ip)) == Decisions(l, Full(l, CreationOf(calls, ip)), TimesOf(calls, ip))
  {
    var start := EarliestCreation(evs);
    EvictionUnobservable(l, evs, start, Concerns(ip));
    FilterKeepsCalls(evs);
    OneBucketPerIp(l, Filter(evs, IsCall), ip);
  }

  // ---- The condition is exact ----

  /** k calls for ip, all at time t. */
  function Burst(ip: Ip, t: int, k: nat): (evs: seq<Event>)
    ensures |evs| == k && forall i :: 0 <= i < k ==> evs[i] == Call(ip, t, t)
  {
    if k == 0 then [] else Burst(ip, t, k - 1) + [Call(ip, t, t)]
  }

  lemma FreshCall(l: Limits, t: int, k: nat)
    requires k < l.burst
    ensures Consume(l, Bucket(l.burst as real - k as real, t, t), t)
         == (Bucket(l.burst as real - (k + 1) as real, t, t), true)
  {
  }

  lemma OneMore(l: Limits, before: seq<Event>, e: Event)
    ensures TableAfter(l, before + [e]) == Apply(l, TableAfter(l, before), e)
    ensures e.Call? ==>
      var ok := Allow(l, TableAfter(l, before), e.ip, e.created, e.now).1;
      Allowed(Answers(l, before + [e], AnyCall)) == Allowed(Answers(l, before, AnyCall)) + TokenBucket.Bit(ok)
    ensures e.Evict? ==> Answers(l, before + [e], AnyCall) == Answers(l, before, AnyCall)
  {
    assert (before + [e])[..|before|] == before;
    var answers := Answers(l, before, AnyCall);
    if e.Call? {
      var ok := Allow(l, TableAfter(l, before), e.ip, e.created, e.now).1;
      assert (answers + [ok])[..|answers|] == answers;
    }
  }

  /** An IP without a bucket gets its whole burst. */
  lemma {:induction false} BurstIsAllowed(l: Limits, before: seq<Event>, ip: Ip, t: int, k: nat)
    requires k <= l.burst && ip !in TableAfter(l, before)
    ensures var evs := before + Burst(ip, t, k);
      && Allowed(Answers(l, evs, AnyCall)) == Allowed(Answers(l, before, AnyCall)) + k
      && BucketFor(l, TableAfter(l, evs), ip, t) == Bucket(l.burst as real - k as real, t, t)
  {
    var evs := before + Burst(ip, t, k);
    if k == 0 {
      assert evs == before;
    } else {
      var most := before + Burst(ip, t, k - 1);
      assert evs == most + [Call(ip, t, t)];
      BurstIsAllowed(l, before, ip, t, k - 1);
      FreshCall(l, t, k - 1);
      hide Consume, Burst, Gain, TableAfter, Answers, Allowed;
      OneMore(l, most, Call(ip, t, t));
    }
  }

  lemma {:induction false} AnswersOfSame(l: Limits, evs: seq<Event>, keep: Event -> bool, other: Event -> bool)
    requires forall e :: e in evs && e.Call? ==> keep(e) == other(e)
    ensures Answers(l, evs, keep) == Answers(l, evs, other)
  {
    if evs != [] {
      AnswersOfSame(l, evs[..|evs| - 1], keep, other);
    }
  }

  lemma {:induction false} FilterCalls(evs: seq<Event>, more: seq<Event>)
    requires forall e :: e in more ==> e.Call?
    ensures Filter(evs + more, IsCall) == Filter(evs, IsCall) + more
    decreases |more|
  {
    if more == [] {
      assert evs + more == evs;
    } else {
      var n := |more| - 1;
      assert (evs + more)[..|evs| + n] == evs + more[..n];
      FilterCalls(evs, more[..n]);
    }
  }

  lemma {:induction false} TimesAmong(evs: seq<Event>, ip: Ip, bound: int)
    requires forall e :: e in evs ==> e.Call? && 0 <= e.created && e.now <= bound
    ensures forall t :: t in TimesOf(evs, ip) ==> t <= bound
    ensures CreationOf(evs, ip) >= 0
  {
    if evs != [] {
      TimesAmong(evs[..|evs| - 1], ip, bound);
    }
  }

  lemma {:induction false} CreationAmong(evs: seq<Event>, ip: Ip, bound: int)
    requires 0 <= bound && forall e :: e in evs ==> e.Call? && e.created <= bound
    ensures CreationOf(evs, ip) <= bound
  {
    if evs != [] {
      CreationAmong(evs[..|evs| - 1], ip, bound);
    }
  }

  /** Calls between time 0 and a later time are bounded by the burst and the refill of that time. */
  lemma CallsAreBounded(l: Limits, calls: seq<Event>, bound: int)
    requires l.Valid() && 0 <= bound
    requires forall e :: e in calls ==> e.Call? && e.ip == [] && 0 <= e.created <= bound && e.now <= bound
    ensures Allowed(Answers(l, calls, AnyCall)) as real <= l.burst as real + Gain(l, bound)
  {
    hide Answers, Gain, Allowed, Decisions, After;
    AnswersOfSame(l, calls, AnyCall, Concerns([]));
    OneBucketPerIp(l, calls, []);
    TimesAmong(calls, [], bound);
    CreationAmong(calls, [], bound);
    var b := Full(l, CreationOf(calls, []));
    var times := TimesOf(calls, []);
    AnyClockGain(l, b, times);
    GainMonotone(l, After(l, b, times).lastRefill - b.lastRefill, bound);
  }

  /** A burst, a sweep at the first moment at which the bucket counts as idle, and another burst. */
  function Telltale(l: Limits): seq<Event>
  {
    Burst([], 0, l.burst) + [Evict(IDLE_TIMEOUT + 1, {[]})] + Burst([], IDLE_TIMEOUT + 1, l.burst)
  }

  lemma TelltaleWithEviction(l: Limits)
    requires l.Valid()
    ensures Allowed(Answers(l, Telltale(l), AnyCall)) == 2 * l.burst
  {
    var first := Burst([], 0, l.burst);
    assert [] + first == first;
    BurstIsAllowed(l, [], [], 0, l.burst);
    var e := Evict(IDLE_TIMEOUT + 1, {[]});
    var swept := first + [e];
    OneMore(l, first, e);
    BurstIsAllowed(l, swept, [], IDLE_TIMEOUT + 1, l.burst);
  }

  lemma EvictIsNoCall(evs: seq<Event>, e: Event)
    requires e.Evict?
    ensures Filter(evs + [e], IsCall) == Filter(evs, IsCall)
  {
    assert (evs + [e])[..|evs|] == evs;
  }

  lemma TelltaleCalls(l: Limits)
    ensures Filter(Telltale(l), IsCall) == Burst([], 0, l.burst) + Burst([], IDLE_TIMEOUT + 1, l.burst)
  {
    hide Burst, Filter;
    var first := Burst([], 0, l.burst);
    var e := Evict(IDLE_TIMEOUT + 1, {[]});
    NoEvents();
    FilterCalls([], first);
    assert [] + first == first;
    EvictIsNoCall(first, e);
    FilterCalls(first + [e], Burst([], IDLE_TIMEOUT + 1, l.burst));
  }

  lemma NoEvents()
    ensures Filter([], IsCall) == []
  {
  }

  lemma TelltaleWithoutEviction(l: Limits)
    requires l.Valid()
    ensures Allowed(Answers(l, Filter(Telltale(l), IsCall), AnyCall)) as real
         <= l.burst as real + Gain(l, IDLE_TIMEOUT + 1)
  {
    hide Burst, Answers, Gain, Filter, TableAfter, Allowed;
    var now := IDLE_TIMEOUT + 1;
    TelltaleCalls(l);
    CallsAreBounded(l, Burst([], 0, l.burst) + Burst([], now, l.burst), now);
  }

  lemma TelltaleClock(l: Limits)
    ensures ClockNeverBack(Telltale(l))
  {
    var evs := Telltale(l);
    forall i | 0 <= i < |evs|
      ensures evs[i] == if i < l.burst then Call([], 0, 0)
                        else if i == l.burst then Evict(IDLE_TIMEOUT + 1, {[]})
                        else Call([], IDLE_TIMEOUT + 1, IDLE_TIMEOUT + 1)
    {
    }
  }

  lemma GainOfTimeout(l: Limits)
    ensures Gain(l, IDLE_TIMEOUT + 1) == 300_000_000_001.0 * l.ratePerNano
  {
  }

  /**
    Exactly when eviction cannot be observed. The idle timeout loses nothing for any sequence of calls and sweeps if
    and only if a bucket refills from empty within five minutes (and the nanosecond by which a bucket must have
    exceeded them to be evicted).
   */
  lemma EvictionUnobservableIff(l: Limits)
    requires l.Valid()
    ensures (forall evs :: ClockNeverBack(evs) ==> Answers(l, evs, AnyCall) == Answers(l, Filter(evs, IsCall), AnyCall))
       <==> l.burst as real <= 300_000_000_001.0 * l.ratePerNano
  {
    hide Gain, Telltale, Answers, Filter, ClockNeverBack;
    GainOfTimeout(l);
    if l.burst as real <= Gain(l, IDLE_TIMEOUT + 1) {
      forall evs | ClockNeverBack(evs)
        ensures Answers(l, evs, AnyCall) == Answers(l, Filter(evs, IsCall), AnyCall)
      {
        var start := EarliestCreation(evs);
        EvictionUnobservable(l, evs, start, AnyCall);
      }
    } else {
      TelltaleWithEviction(l);
      TelltaleWithoutEviction(l);
      TelltaleClock(l);
    }
  }
}
