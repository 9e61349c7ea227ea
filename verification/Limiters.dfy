/**
  The limiter as the objects of ratelimiter/token_bucket.go: 256 shards, each with its own map to bucket objects that
  consume updates in place. `table` is the single map that the shards together stand for.
 */
module Limiters {
  import opened Fnv
  import opened TokenBucket
  import opened LimiterTable

  class BucketRef {
    var tokens: real
    var lastRefillNano: int
    var lastSeenNano: int

    constructor (tokens: real, now: int)
      ensures Value() == Bucket(tokens, now, now)
    {
      this.tokens := tokens;
      lastRefillNano := now;
      lastSeenNano := now;
    }

    ghost function Value(): Bucket
      reads this
    {
      Bucket(tokens, lastRefillNano, lastSeenNano)
    }

    /** The critical section of consume. */
    method Take(l: Limits, now: int) returns (ok: bool)
      modifies this
      ensures (Value(), ok) == Consume(l, old(Value()), now)
      ensures lastSeenNano == now && lastRefillNano == if now > old(lastRefillNano) then now else old(lastRefillNano)
      ensures var elapsed := now - old(lastRefillNano);
        var grown := old(tokens) + elapsed as real * l.ratePerNano;
        var found := if elapsed <= 0 then old(tokens) else if grown > l.burst as real then l.burst as real else grown;
        ok == (found >= 1.0) && tokens == if ok then found - 1.0 else found
    {
      var elapsed := now - lastRefillNano;
      assert elapsed as real * l.ratePerNano == Gain(l, elapsed);
      if elapsed > 0 {
        tokens := tokens + elapsed as real * l.ratePerNano;
        if tokens > l.burst as real {
          tokens := l.burst as real;
        }
        lastRefillNano := now;
      }
      lastSeenNano := now;
      if tokens >= 1.0 {
        tokens := tokens - 1.0;
        return true;
      }
      return false;
    }
  }

  /** The states of the buckets of t. */
  ghost function Snapshot(t: map<Ip, BucketRef>): Table
    reads t.Values
  {
    map ip | ip in t :: t[ip].Value()
  }

  lemma SnapshotInsert(t: map<Ip, BucketRef>, ip: Ip, b: BucketRef)
    ensures Snapshot(t[ip := b]) == Snapshot(t)[ip := b.Value()]
  {
  }

  lemma SnapshotRemove(t: map<Ip, BucketRef>, ip: Ip)
    ensures Snapshot(t - {ip}) == Snapshot(t) - {ip}
  {
  }

  twostate lemma SnapshotSame(t: map<Ip, BucketRef>)
    requires forall ip :: ip in t ==> t[ip].Value() == old(t[ip].Value())
    ensures Snapshot(t) == old(Snapshot(t))
  {
  }

  class Shard {
    var buckets: map<Ip, BucketRef>

    constructor ()
      ensures buckets == map[]
    {
      buckets := map[];
    }
  }

  /** A call of Allow: the IP, and the clock readings of getOrCreate and of consume. */
  datatype Request = Request(ip: Ip, created: int, now: int)

  function CallsOf(requests: seq<Request>): (calls: seq<Event>)
    ensures |calls| == |requests|
  {
    if requests == [] then []
    else
      var r := requests[|requests| - 1];
      CallsOf(requests[..|requests| - 1]) + [Call(r.ip, r.created, r.now)]
  }

  function AllCalls(gaps: seq<seq<Request>>): seq<Event>
  {
    if gaps == [] then [] else AllCalls(gaps[..|gaps| - 1]) + CallsOf(gaps[|gaps| - 1])
  }

  /** Each IP has a bucket object of its own. */
  ghost predicate Unshared(table: map<Ip, BucketRef>)
  {
    forall ip, other :: ip in table && other in table && ip != other ==> table[ip] != table[other]
  }

  /** All of m belongs into shard i, and the single map has it. */
  ghost predicate IsPart(m: map<Ip, BucketRef>, i: nat, table: map<Ip, BucketRef>)
  {
    forall ip :: ip in m ==> i == ShardIndex(ip) && ip in table && table[ip] == m[ip]
  }

  /** From `before` to `after` these calls have come, and evictions of sweeps that started at sweepStart. */
  ghost predicate Interleaves(before: seq<Event>, after: seq<Event>, calls: seq<Event>, sweepStart: int)
  {
    && before <= after
    && Filter(after[|before|..], IsCall) == calls
    && forall e :: e in after[|before|..] && e.Evict? ==> e.sweepStart == sweepStart
  }

  /** The bucket of ip counts as idle for a sweep that starts then. */
  ghost predicate Idle(t: Table, ip: Ip, sweepStart: int)
  {
    ip in t && t[ip].lastSeen < sweepStart - IDLE_TIMEOUT
  }

  ghost predicate Called(calls: seq<Event>, ip: Ip)
  {
    exists c :: c in calls && c.Call? && c.ip == ip
  }

  /** No call for ip takes its token before this time. */
  ghost predicate CalledFrom(calls: seq<Event>, ip: Ip, time: int)
  {
    forall c :: c in calls && c.Call? && c.ip == ip ==> c.now >= time
  }

  /** What a sweep may do to the bucket of an IP that is not called: nothing, or delete it if it is idle. */
  ghost predicate MayStay(t: Table, u: Table, ip: Ip, sweepStart: int)
  {
    && (ip in u ==> ip in t && u[ip] == t[ip])
    && (ip in t && !Idle(t, ip, sweepStart) ==> ip in u)
  }

  class Limiter {
    const limits: Limits
    const shards: seq<Shard>
    ghost var table: map<Ip, BucketRef>
    ghost var evs: seq<Event>   // all complete calls and evictions so far

    /** Each IP lives in the shard of its hash and nowhere else, with a bucket object of its own. */
    ghost predicate Valid()
      reads this, shards
    {
      && |shards| == 256
      && (forall i, j :: 0 <= i < j < 256 ==> shards[i] != shards[j])
      && (forall i :: 0 <= i < 256 ==> IsPart(shards[i].buckets, i, table))
      && (forall ip :: ip in table ==> ip in shards[ShardIndex(ip)].buckets)
      && Unshared(table)
    }

    /** The limiter as the map of module LimiterTable. */
    ghost function Contents(): Table
      reads this, table.Values
    {
      Snapshot(table)
    }

    /** The buckets are those of the single map after the same events. */
    ghost predicate Follows()
      reads this, table.Values
    {
      Contents() == TableAfter(limits, evs)
    }

    /** From the configured rate in tokens per second and the burst size. */
    constructor (rateLimit: real, burstSize: nat)
      ensures Valid() && Contents() == map[]
      ensures limits.ratePerNano * 1_000_000_000.0 == rateLimit && limits.burst == burstSize
      ensures Follows() && evs == [] && fresh(shards)
    {
      var made: seq<Shard> := [];
      for i := 0 to 256
        invariant |made| == i && fresh(made)
        invariant forall j, k :: 0 <= j < k < i ==> made[j] != made[k]
        invariant forall j :: 0 <= j < i ==> made[j].buckets == map[]
      {
        var s := new Shard();
        made := made + [s];
      }
      limits := Limits(rateLimit / 1_000_000_000.0, burstSize);
      shards := made;
      table := map[];
      evs := [];
    }

    lemma Lookup(i: nat, ip: Ip)
      requires Valid() && i < 256
      ensures |shards| == 256
      ensures ip in shards[i].buckets <==> ip in table && ShardIndex(ip) == i
      ensures ip in shards[i].buckets ==> table[ip] == shards[i].buckets[ip]
    {
    }

    function ShardFor(ip: Ip): (s: Shard)
      requires |shards| == 256
    {
      shards[ShardIndex(ip)]
    }

    lemma ShardOfHash(ip: Ip)
      requires |shards| == 256
      ensures ShardFor(ip) == shards[(Hash(ip) % 256) as bv8 as nat]
    {
      ShardIsRemainder(ip);
    }

    lemma PartsAfterInsert(ip: Ip, b: BucketRef)
      requires Valid() && ip !in ShardFor(ip).buckets && b !in table.Values
      ensures ip !in table && Unshared(table[ip := b])
      ensures forall i :: 0 <= i < 256 ==> IsPart(shards[i].buckets, i, table[ip := b])
      ensures IsPart(ShardFor(ip).buckets[ip := b], ShardIndex(ip), table[ip := b])
    {
      hide ShardIndex;
    }

    lemma PartsAfterRemove(i: nat, ip: Ip)
      requires Valid() && i < 256 && ip in shards[i].buckets
      ensures |shards| == 256 && i == ShardIndex(ip) && Unshared(table - {ip})
      ensures forall j :: 0 <= j < 256 && j != i ==> IsPart(shards[j].buckets, j, table - {ip})
      ensures IsPart(shards[i].buckets - {ip}, i, table - {ip})
    {
      hide ShardIndex;
    }

    /** No other IP shares a bucket object with ip. */
    lemma OwnObject(ip: Ip)
      requires Valid() && ip in table
      ensures forall other :: other in table && other != ip ==> table[other] != table[ip]
    {
      hide ShardIndex;
    }

    /** The insertion of a new bucket object. */
    method Insert(s: Shard, ip: Ip, b: BucketRef)
      requires Valid() && s == ShardFor(ip) && ip !in s.buckets && b !in table.Values
      modifies this`table, s
      ensures Valid() && ip !in old(table) && table == old(table)[ip := b]
    {
      hide ShardIndex, Unshared, IsPart;
      PartsAfterInsert(ip, b);
      s.buckets := s.buckets[ip := b];
      table := table[ip := b];
    }

    /** The second lookup under the write lock, and the insertion if the bucket is still missing. */
    method GetOrCreate(s: Shard, ip: Ip, now: int) returns (b: BucketRef)
      requires Valid() && s == ShardFor(ip)
      modifies this`table, s
      ensures Valid() && ip in table && table[ip] == b
      ensures ip in old(table) ==> table == old(table)
      ensures ip !in old(table) ==> fresh(b) && table == old(table)[ip := b]
      ensures ip !in old(table) ==> b.tokens == limits.burst as real && b.lastRefillNano == b.lastSeenNano == now
      ensures Contents() == old(Contents())[ip := BucketFor(limits, old(Contents()), ip, now)]
    {
      hide ShardIndex, Valid;
      Lookup(ShardIndex(ip), ip);
      if ip in s.buckets {
        b := s.buckets[ip];
        SnapshotSame(table);
      } else {
        b := new BucketRef(limits.burst as real, now);
        Insert(s, ip, b);
        SnapshotSame(old(table));
        SnapshotInsert(old(table), ip, b);
      }
      hide Snapshot;
    }

    /** Takes a token from the bucket b of ip; the buckets of other IPs keep their state. */
    method TakeToken(b: BucketRef, ghost ip: Ip, now: int) returns (ok: bool)
      requires Valid() && ip in table && table[ip] == b
      modifies b
      ensures Valid()
      ensures var (left, answer) := Consume(limits, old(Contents())[ip], now);
        Contents() == old(Contents())[ip := left] && ok == answer
    {
      hide ShardIndex, Consume, Unshared, IsPart;
      OwnObject(ip);
      ok := b.Take(limits, now);
      assert forall other :: other in table && other != ip ==> table[other].Value() == old(table[other].Value());
    }

    ghost method Record(e: Event)
      requires Valid() && Contents() == Apply(limits, TableAfter(limits, evs), e)
      modifies this`evs
      ensures Valid() && Follows() && evs == old(evs) + [e] && Contents() == old(Contents())
    {
      hide ShardIndex, Apply, TableAfter, Snapshot;
      OneMore(limits, evs, e);
      evs := evs + [e];
    }

    /** created and now are the clock readings of getOrCreate and consume. */
    method Allow(ip: Ip, created: int, now: int) returns (ok: bool)
      requires Valid() && Follows()
      modifies this`table, this`evs, shards, table.Values
      ensures Valid() && fresh(table.Values - old(table.Values)) && table.Keys == old(table.Keys) + {ip}
      ensures (Contents(), ok) == LimiterTable.Allow(limits, old(Contents()), ip, created, now)
      ensures Follows() && evs == old(evs) + [Call(ip, created, now)]
      ensures AnswersTo(ip) == old(AnswersTo(ip)) + [ok]
    {
      hide ShardIndex, Consume, Valid, LimiterTable.Allow, BucketFor, TableAfter, Answers;
      Lookup(ShardIndex(ip), ip);
      var s := ShardFor(ip);
      AllowInTwoSteps(limits, Contents(), ip, created, now);
      assert s in shards;
      var b: BucketRef;
      if ip in s.buckets {
        b := s.buckets[ip];
        assert b in table.Values;
      } else {
        b := GetOrCreate(s, ip, created);
        assert fresh(b) && table.Values <= old(table.Values) + {b};
      }
      assert table.Keys == old(table.Keys) + {ip};
      ok := TakeToken(b, ip, now);
      AnswersMore(limits, evs, ip, created, now);
      Record(Call(ip, created, now));
    }

    /** Calls that come while a sweep or Stats holds no lock. */
    method Serve(requests: seq<Request>)
      requires Valid() && Follows()
      modifies this`table, this`evs, shards, table.Values
      ensures Valid() && fresh(table.Values - old(table.Values)) && old(table.Keys) <= table.Keys
      ensures Follows() && evs == old(evs) + CallsOf(requests)
    {
      hide Valid, Follows, Contents;
      for n := 0 to |requests|
        invariant Valid() && fresh(table.Values - old(table.Values)) && old(table.Keys) <= table.Keys
        invariant Follows() && evs == old(evs) + CallsOf(requests[..n])
      {
        var r := requests[n];
        var ok := Allow(r.ip, r.created, r.now);
        assert requests[..n + 1][..n] == requests[..n];
      }
      assert requests[..|requests|] == requests;
    }

    /** What the calls of ip so far were answered. */
    ghost function AnswersTo(ip: Ip): seq<bool>
      reads this
    {
      Answers(limits, evs, Concerns(ip))
    }

    /** However it was used, the limiter has answered each IP as a bucket of its own would have done. */
    lemma EachIpHasItsOwnBucket(ip: Ip)
      requires limits.Valid() && limits.burst as real <= Gain(limits, IDLE_TIMEOUT + 1) && ClockNeverBack(evs)
      ensures var calls := Filter(evs, IsCall);
        AnswersTo(ip) == Decisions(limits, Full(limits, CreationOf(calls, ip)), TimesOf(calls, ip))
    {
      EachIpSeesItsOwnBucket(limits, evs, ip);
    }

    /** Phase 1 of a sweep of shard i: the IPs that look idle. */
    method Scan(i: nat, cutoff: int) returns (toEvict: seq<Ip>)
      requires Valid() && i < 256
      ensures forall ip :: ip in toEvict <==>
        ip in shards[i].buckets && shards[i].buckets[ip].lastSeenNano < cutoff
    {
      toEvict := [];
      var rest := shards[i].buckets.Keys;
      while rest != {}
        invariant rest <= shards[i].buckets.Keys
        invariant forall ip :: ip in toEvict <==>
          ip in shards[i].buckets && ip !in rest && shards[i].buckets[ip].lastSeenNano < cutoff
        decreases |rest|
      {
        var ip :| ip in rest;
        if shards[i].buckets[ip].lastSeenNano < cutoff {
          toEvict := toEvict + [ip];
        }
        rest := rest - {ip};
      }
    }

    method Remove(i: nat, ip: Ip)
      requires Valid() && i < 256 && ip in shards[i].buckets
      modifies this`table, shards[i]
      ensures Valid() && table == old(table) - {ip} && table.Values <= old(table.Values) && evs == old(evs)
    {
      hide ShardIndex, Unshared, IsPart;
      PartsAfterRemove(i, ip);
      var s := shards[i];
      s.buckets := s.buckets - {ip};
      table := table - {ip};
    }

    /** One candidate of phase 2: deleted if it is in this shard and still idle. */
    method DeleteIfIdle(i: nat, sweepStart: int, ip: Ip)
      requires Valid() && i < 256
      modifies this`table, shards[i]
      ensures Valid() && table.Values <= old(table.Values) && evs == old(evs)
      ensures Contents() == Purge(old(Contents()), sweepStart, Candidates([ip], i))
    {
      hide ShardIndex, Valid, Purge;
      Lookup(i, ip);
      var s := shards[i];
      assert ip in Candidates([ip], i) <==> ShardIndex(ip) == i;
      PurgeOfOne(Contents(), sweepStart, ip, Candidates([ip], i));
      if ip in s.buckets && s.buckets[ip].lastSeenNano < sweepStart - IDLE_TIMEOUT {
        Remove(i, ip);
        SnapshotSame(old(table));
        SnapshotRemove(old(table), ip);
      }
    }

    /** Phase 2: whatever phase 1 collected, delete what is still idle now. */
    method DeleteIdle(i: nat, sweepStart: int, toEvict: seq<Ip>)
      requires Valid() && Follows() && i < 256
      modifies this`table, this`evs, shards[i]
      ensures Valid() && table.Values <= old(table.Values)
      ensures Contents() == Purge(old(Contents()), sweepStart, Candidates(toEvict, i))
      ensures Follows() && evs == old(evs) + [Evict(sweepStart, Candidates(toEvict, i))]
      ensures forall ip :: ip in Contents() <==>
        && ip in old(Contents())
        && !(ip in toEvict && ShardIndex(ip) == i && old(Contents())[ip].lastSeen < sweepStart - 300_000_000_000)
      ensures forall ip :: ip in Contents() ==> Contents()[ip] == old(Contents())[ip]
    {
      hide ShardIndex, Valid, Contents, TableAfter;
      ghost var before := Contents();
      PurgeOfNothing(before, sweepStart, Candidates([], i));
      for n := 0 to |toEvict|
        invariant Valid() && table.Values <= old(table.Values) && evs == old(evs)
        invariant Contents() == Purge(before, sweepStart, Candidates(toEvict[..n], i))
      {
        DeleteIfIdle(i, sweepStart, toEvict[n]);
        PurgeTwice(before, sweepStart, Candidates(toEvict[..n], i), Candidates([toEvict[n]], i));
        assert toEvict[..n + 1] == toEvict[..n] + [toEvict[n]];
        assert Candidates(toEvict[..n + 1], i) == Candidates(toEvict[..n], i) + Candidates([toEvict[n]], i);
      }
      assert toEvict[..|toEvict|] == toEvict;
      PurgeMeans(before, sweepStart, toEvict, i);
      Record(Evict(sweepStart, Candidates(toEvict, i)));
    }

    /** Phase 1 finds every idle IP of the shard. */
    lemma ScanFinds(i: nat, cutoff: int, toEvict: seq<Ip>, ip: Ip)
      requires Valid() && i < 256 && ShardIndex(ip) == i
      requires forall ip :: ip in toEvict <==>
        ip in shards[i].buckets && shards[i].buckets[ip].lastSeenNano < cutoff
      ensures ip in Contents() && Contents()[ip].lastSeen < cutoff ==> ip in toEvict
    {
      hide ShardIndex;
    }

    /**
      Both phases for one shard, with the calls that come before the first and between the two. An idle IP of the shard
      that is not called meanwhile loses its bucket.
     */
    method SweepShard(i: nat, sweepStart: int, gap: seq<Request>, between: seq<Request>)
      requires Valid() && Follows() && i < 256
      modifies this`table, this`evs, shards, table.Values
      ensures Valid() && fresh(table.Values - old(table.Values))
      ensures Follows() && Interleaves(old(evs), evs, CallsOf(gap) + CallsOf(between), sweepStart)
      ensures forall ip ::
        ShardIndex(ip) == i && !Called(CallsOf(gap) + CallsOf(between), ip) && Idle(old(Contents()), ip, sweepStart)
        ==> ip !in Contents()
    {
      hide ShardIndex, Valid, TableAfter, Interleaves, Contents, Purge, Candidates, Called, Idle, MayStay;
      ghost var t0, start := Contents(), evs;
      InterleavesCalls(evs, gap, sweepStart);
      Serve(gap);
      ghost var t1, halfWay := Contents(), evs;
      var toEvict := Scan(i, sweepStart - IDLE_TIMEOUT);
      forall ip | ShardIndex(ip) == i
        ensures Idle(t1, ip, sweepStart) ==> ip in toEvict
      {
        ScanFinds(i, sweepStart - IDLE_TIMEOUT, toEvict, ip);
        IdleMeans(t1, ip, sweepStart);
      }
      InterleavesCalls(evs, between, sweepStart);
      Serve(between);
      ghost var t2 := Contents();
      InterleavesOn(start, halfWay, evs, CallsOf(gap), CallsOf(between), sweepStart);
      InterleavesEvict(start, evs, CallsOf(gap) + CallsOf(between), sweepStart, Candidates(toEvict, i));
      forall ip | !Called(CallsOf(gap) + CallsOf(between), ip)
        ensures MayStay(t0, t1, ip, sweepStart) && MayStay(t1, t2, ip, sweepStart)
      {
        CalledJoin(CallsOf(gap), CallsOf(between), ip);
        SweptTable(limits, start, halfWay, CallsOf(gap), sweepStart, ip);
        SweptTable(limits, halfWay, evs, CallsOf(between), sweepStart, ip);
      }
      Lookup(i, []);
      assert shards[i] in shards;
      if |toEvict| > 0 {
        DeleteIdle(i, sweepStart, toEvict);
      }
      forall ip | ShardIndex(ip) == i && !Called(CallsOf(gap) + CallsOf(between), ip) && Idle(t0, ip, sweepStart)
        ensures ip !in Contents()
      {
        IdleIsGone(t0, t1, t2, Contents(), toEvict, ip, sweepStart);
      }
    }

    /**
      A whole sweep. It holds no lock between two shards and between the two phases of a shard, where any calls may
      come: gaps has them, in order. Besides these calls nothing happens to the buckets but evictions of this sweep. An
      IP that is not called meanwhile loses its bucket exactly if it has been idle for more than five minutes; an IP
      that is called has one afterwards.
     */
    method RunGC(now: int, gaps: seq<seq<Request>>)
      requires Valid() && Follows() && |gaps| == 512
      modifies this`table, this`evs, shards, table.Values
      ensures Valid() && fresh(table.Values - old(table.Values))
      ensures Follows() && Interleaves(old(evs), evs, AllCalls(gaps), now)
      ensures forall ip :: !Called(AllCalls(gaps), ip) ==>
        && (ip in Contents() <==> ip in old(Contents()) && old(Contents())[ip].lastSeen >= now - 300_000_000_000)
        && (ip in Contents() ==> Contents()[ip] == old(Contents())[ip])
      ensures forall ip :: Called(AllCalls(gaps), ip) && CalledFrom(AllCalls(gaps), ip, now - 300_000_000_000) ==>
        ip in Contents()
    {
      hide ShardIndex, Valid, Contents, Interleaves, Called, CalledFrom, Idle, MayStay, TableAfter;
      ghost var before, first := Contents(), evs;
      NothingInterleaved(evs, now);
      for i := 0 to 256
        invariant Valid() && Follows() && fresh(table.Values - old(table.Values))
        invariant Interleaves(first, evs, AllCalls(gaps[..2 * i]), now)
        invariant forall ip :: ShardIndex(ip) < i && !Called(AllCalls(gaps[..2 * i]), ip) && Idle(before, ip, now) ==>
          ip !in Contents()
      {
        ghost var atStart, t := evs, Contents();
        ghost var soFar, more := AllCalls(gaps[..2 * i]), CallsOf(gaps[2 * i]) + CallsOf(gaps[2 * i + 1]);
        SweepShard(i, now, gaps[2 * i], gaps[2 * i + 1]);
        InterleavesOn(first, atStart, evs, soFar, more, now);
        TwoMoreGaps(gaps, 2 * i);
        forall ip | ShardIndex(ip) < i + 1 && !Called(soFar + more, ip) && Idle(before, ip, now)
          ensures ip !in Contents()
        {
          CalledJoin(soFar, more, ip);
          SweptTable(limits, first, atStart, soFar, now, ip);
          SweptTable(limits, atStart, evs, more, now, ip);
          StillIdle(before, t, Contents(), ip, now);
        }
      }
      assert gaps[..512] == gaps;
      forall ip
        ensures !Called(AllCalls(gaps), ip) ==> MayStay(before, Contents(), ip, now)
        ensures Called(AllCalls(gaps), ip) && CalledFrom(AllCalls(gaps), ip, now - 300_000_000_000) ==>
          ip in Contents()
        ensures Idle(before, ip, now) <==> ip in before && before[ip].lastSeen < now - 300_000_000_000
      {
        SweptTable(limits, first, evs, AllCalls(gaps), now, ip);
        IdleMeans(before, ip, now);
      }
      forall ip | !Called(AllCalls(gaps), ip)
        ensures ip in Contents() <==> ip in before && before[ip].lastSeen >= now - 300_000_000_000
        ensures ip in Contents() ==> Contents()[ip] == before[ip]
      {
        StaysIff(before, Contents(), ip, now);
      }
    }

    /** The size of one shard, after the calls that come before its lock is taken. */
    method CountShard(i: nat, gap: seq<Request>, ghost first: set<Ip>) returns (size: nat)
      requires Valid() && Follows() && i < 256 && first <= table.Keys
      modifies this`table, this`evs, shards, table.Values
      ensures Valid() && Follows() && fresh(table.Values - old(table.Values))
      ensures old(table.Keys) <= table.Keys && evs == old(evs) + CallsOf(gap)
      ensures |LowerShards(first, i + 1)| <= |LowerShards(first, i)| + size
      ensures |LowerShards(old(table.Keys), i)| + size <= |LowerShards(table.Keys, i + 1)|
    {
      hide ShardIndex, Valid, Follows, LowerShards, CallsOf;
      ghost var known := table.Keys;
      Serve(gap);
      ShardCounts(i, first, known);
      size := |shards[i].buckets|;
    }

    /**
      TrackedIPs of Stats, with the calls that come between two shards: the shard sizes add up to at least the size
      that the single map had before, and at most the size that it has afterwards.
     */
    method TrackedIPs(gaps: seq<seq<Request>>) returns (total: nat)
      requires Valid() && Follows() && |gaps| == 256
      modifies this`table, this`evs, shards, table.Values
      ensures Valid() && Follows() && evs == old(evs) + AllCalls(gaps)
      ensures |old(table.Keys)| <= total <= |table.Keys|
      ensures AllCalls(gaps) == [] ==> table.Keys == old(table.Keys)
    {
      hide ShardIndex, Valid, Follows, LowerShards, CallsOf, AllCalls, TableAfter;
      total := 0;
      ghost var before, start := table.Keys, evs;
      NoShards(before);
      TableKeys();
      assert evs == start + AllCalls(gaps[..0]) by { NoGaps(gaps); }
      for i := 0 to 256
        invariant Valid() && Follows() && fresh(table.Values - old(table.Values))
        invariant before <= table.Keys && evs == start + AllCalls(gaps[..i])
        invariant |LowerShards(before, i)| <= total <= |LowerShards(table.Keys, i)|
      {
        var size := CountShard(i, gaps[i], before);
        total := total + size;
        OneMoreGap(start, gaps, i);
      }
      assert gaps[..256] == gaps;
      AllShards(table.Keys);
      AllShards(before);
      TableKeys();
    }

    /** What the size of shard i adds, between what it was and what it is. */
    lemma ShardCounts(i: nat, first: set<Ip>, known: set<Ip>)
      requires Valid() && i < 256 && first <= table.Keys && known <= table.Keys
      ensures |shards| == 256
      ensures |LowerShards(first, i + 1)| <= |LowerShards(first, i)| + |shards[i].buckets|
      ensures |LowerShards(known, i)| + |shards[i].buckets| <= |LowerShards(table.Keys, i + 1)|
    {
      hide LowerShards, ShardIndex, Valid;
      NextShard(i);
      MoreInShards(known, table.Keys, i);
      MoreInShards(first, table.Keys, i);
    }

    lemma TableKeys()
      requires Follows()
      ensures table.Keys == TableAfter(limits, evs).Keys
    {
      assert table.Keys == Contents().Keys;
    }

    /** The next shard adds its IPs to those of the lower shards, and shares none with them. */
    lemma NextShard(i: nat)
      requires Valid() && i < 256
      ensures |shards| == 256
      ensures |LowerShards(table.Keys, i + 1)| == |LowerShards(table.Keys, i)| + |shards[i].buckets|
    {
      hide ShardIndex;
      var own := shards[i].buckets.Keys;
      assert LowerShards(table.Keys, i) !! own;
      assert LowerShards(table.Keys, i + 1) == LowerShards(table.Keys, i) + own;
    }
  }

  // ---- What a sweep does to one IP ----

  lemma IdleMeans(t: Table, ip: Ip, sweepStart: int)
    ensures Idle(t, ip, sweepStart) <==> ip in t && t[ip].lastSeen < sweepStart - 300_000_000_000
  {
  }

  lemma CalledJoin(a: seq<Event>, b: seq<Event>, ip: Ip)
    ensures Called(a + b, ip) <==> Called(a, ip) || Called(b, ip)
  {
  }

  lemma AfterCall(l: Limits, t: Table, e: Event)
    requires e.Call?
    ensures var u := Apply(l, t, e);
      && e.ip in u && u[e.ip].lastSeen == e.now
      && forall ip :: ip != e.ip ==> (ip in u <==> ip in t) && (ip in u ==> u[ip] == t[ip])
  {
  }

  /** The calls and evictions of a sweep, seen from one IP. */
  lemma {:induction false} SweptTable(l: Limits, before: seq<Event>, after: seq<Event>, calls: seq<Event>,
                                      sweepStart: int, ip: Ip)
    requires Interleaves(before, after, calls, sweepStart)
    ensures var t, u := TableAfter(l, before), TableAfter(l, after);
      && (!Called(calls, ip) ==> MayStay(t, u, ip, sweepStart))
      && (Called(calls, ip) && CalledFrom(calls, ip, sweepStart - IDLE_TIMEOUT) ==>
            ip in u && !Idle(u, ip, sweepStart))
    decreases |after|
  {
    if |after| == |before| {
      assert after == before && calls == [];
    } else {
      var n := |after| - 1;
      var e, most := after[n], after[..n];
      var fewer := Filter(most[|before|..], IsCall);
      assert after[|before|..][..n - |before|] == most[|before|..];
      SweptTable(l, before, most, fewer, sweepStart, ip);
      assert calls == if e.Call? then fewer + [e] else fewer;
      if e.Call? {
        assert e in calls;
        assert forall c :: c in fewer ==> c in calls;
        CalledJoin(fewer, [e], ip);
        AfterCall(l, TableAfter(l, most), e);
      }
    }
  }

  /** A bucket that is idle and not called up to the two phases of its shard is gone after them. */
  lemma IdleIsGone(t0: Table, t1: Table, t2: Table, t3: Table, toEvict: seq<Ip>, ip: Ip, sweepStart: int)
    requires MayStay(t0, t1, ip, sweepStart) && MayStay(t1, t2, ip, sweepStart) && Idle(t0, ip, sweepStart)
    requires Idle(t1, ip, sweepStart) ==> ip in toEvict
    requires ip in t3 ==> ip in t2 && !(ip in toEvict && t2[ip].lastSeen < sweepStart - 300_000_000_000)
    ensures ip !in t3
  {
  }

  lemma StillIdle(t0: Table, t1: Table, t2: Table, ip: Ip, sweepStart: int)
    requires MayStay(t0, t1, ip, sweepStart) && MayStay(t1, t2, ip, sweepStart) && Idle(t0, ip, sweepStart)
    ensures ip in t2 ==> Idle(t1, ip, sweepStart)
  {
  }

  lemma StaysIff(t: Table, u: Table, ip: Ip, sweepStart: int)
    requires MayStay(t, u, ip, sweepStart) && (Idle(t, ip, sweepStart) ==> ip !in u)
    ensures ip in u <==> ip in t && t[ip].lastSeen >= sweepStart - 300_000_000_000
    ensures ip in u ==> u[ip] == t[ip]
  {
  }

  lemma AnswersMore(l: Limits, evs: seq<Event>, ip: Ip, created: int, now: int)
    ensures Answers(l, evs + [Call(ip, created, now)], Concerns(ip))
         == Answers(l, evs, Concerns(ip)) + [LimiterTable.Allow(l, TableAfter(l, evs), ip, created, now).1]
  {
    assert (evs + [Call(ip, created, now)])[..|evs|] == evs;
  }

  /** The candidates that belong to shard i. */
  ghost function Candidates(toEvict: seq<Ip>, i: nat): set<Ip>
  {
    set ip | ip in toEvict && ShardIndex(ip) == i
  }

  ghost function LowerShards(ips: set<Ip>, i: nat): set<Ip>
  {
    set ip | ip in ips && ShardIndex(ip) < i
  }

  lemma NoGaps(gaps: seq<seq<Request>>)
    ensures AllCalls(gaps[..0]) == []
  {
  }

  lemma OneMoreGap(start: seq<Event>, gaps: seq<seq<Request>>, n: nat)
    requires n < |gaps|
    ensures start + AllCalls(gaps[..n]) + CallsOf(gaps[n]) == start + AllCalls(gaps[..n + 1])
  {
    hide CallsOf;
    assert gaps[..n + 1][..n] == gaps[..n];
    assert start + AllCalls(gaps[..n]) + CallsOf(gaps[n]) == start + (AllCalls(gaps[..n]) + CallsOf(gaps[n]));
  }

  lemma TwoMoreGaps(gaps: seq<seq<Request>>, n: nat)
    requires n + 1 < |gaps|
    ensures AllCalls(gaps[..n + 2]) == AllCalls(gaps[..n]) + (CallsOf(gaps[n]) + CallsOf(gaps[n + 1]))
  {
    hide CallsOf;
    assert gaps[..n + 2][..n + 1] == gaps[..n + 1] && gaps[..n + 1][..n] == gaps[..n];
    var calls := AllCalls(gaps[..n]);
    assert calls + CallsOf(gaps[n]) + CallsOf(gaps[n + 1]) == calls + (CallsOf(gaps[n]) + CallsOf(gaps[n + 1]));
  }

  lemma NoShards(ips: set<Ip>)
    ensures LowerShards(ips, 0) == {}
  {
  }

  lemma AllShards(ips: set<Ip>)
    ensures LowerShards(ips, 256) == ips
  {
  }

  lemma FewerElements(few: set<Ip>, many: set<Ip>)
    requires few <= many
    ensures |few| <= |many|
  {
    assert many == few + (many - few);
  }

  /** Of more IPs, there are more in each shard and in the lower shards. */
  lemma MoreInShards(few: set<Ip>, many: set<Ip>, i: nat)
    requires few <= many
    ensures |LowerShards(few, i)| <= |LowerShards(many, i)|
    ensures |LowerShards(few, i + 1)| - |LowerShards(few, i)| <= |LowerShards(many, i + 1)| - |LowerShards(many, i)|
  {
    var ownFew := LowerShards(few, i + 1) - LowerShards(few, i);
    var ownMany := LowerShards(many, i + 1) - LowerShards(many, i);
    assert LowerShards(few, i + 1) == LowerShards(few, i) + ownFew;
    assert LowerShards(many, i + 1) == LowerShards(many, i) + ownMany;
    FewerElements(LowerShards(few, i), LowerShards(many, i));
    FewerElements(ownFew, ownMany);
  }

  lemma {:induction false} OnlyCalls(requests: seq<Request>)
    ensures Filter(CallsOf(requests), IsCall) == CallsOf(requests)
    ensures forall e :: e in CallsOf(requests) ==> e.Call?
  {
    if requests != [] {
      var n := |requests| - 1;
      OnlyCalls(requests[..n]);
      assert CallsOf(requests)[..n] == CallsOf(requests[..n]);
    }
  }

  lemma {:induction false} FilterJoins(a: seq<Event>, b: seq<Event>, keep: Event -> bool)
    ensures Filter(a + b, keep) == Filter(a, keep) + Filter(b, keep)
    decreases |b|
  {
    if b == [] {
      assert a + b == a;
    } else {
      var n := |b| - 1;
      assert (a + b)[..|a| + n] == a + b[..n];
      FilterJoins(a, b[..n], keep);
    }
  }

  lemma NothingInterleaved(evs: seq<Event>, sweepStart: int)
    ensures Interleaves(evs, evs, [], sweepStart)
  {
    assert evs[|evs|..] == [];
  }

  lemma InterleavesCalls(before: seq<Event>, requests: seq<Request>, sweepStart: int)
    ensures Interleaves(before, before + CallsOf(requests), CallsOf(requests), sweepStart)
  {
    OnlyCalls(requests);
    assert (before + CallsOf(requests))[|before|..] == CallsOf(requests);
  }

  lemma InterleavesEvict(before: seq<Event>, after: seq<Event>, calls: seq<Event>, sweepStart: int, ips: set<Ip>)
    requires Interleaves(before, after, calls, sweepStart)
    ensures Interleaves(before, after + [Evict(sweepStart, ips)], calls, sweepStart)
  {
    var e := Evict(sweepStart, ips);
    assert (after + [e])[|before|..] == after[|before|..] + [e];
    assert (after[|before|..] + [e])[..|after| - |before|] == after[|before|..];
  }

  lemma InterleavesOn(a: seq<Event>, b: seq<Event>, c: seq<Event>, first: seq<Event>, second: seq<Event>,
                      sweepStart: int)
    requires Interleaves(a, b, first, sweepStart) && Interleaves(b, c, second, sweepStart)
    ensures Interleaves(a, c, first + second, sweepStart)
  {
    assert c[|a|..] == b[|a|..] + c[|b|..];
    FilterJoins(b[|a|..], c[|b|..], IsCall);
  }

  /** An Allow makes sure that there is a bucket, and then takes a token from it. */
  lemma AllowInTwoSteps(l: Limits, t: Table, ip: Ip, created: int, now: int)
    ensures var found := BucketFor(l, t, ip, created);
      var (left, ok) := Consume(l, found, now);
      LimiterTable.Allow(l, t, ip, created, now) == (t[ip := found][ip := left], ok)
    ensures ip in t ==> t == t[ip := BucketFor(l, t, ip, created)]
  {
    var left := Consume(l, BucketFor(l, t, ip, created), now).0;
    assert t[ip := BucketFor(l, t, ip, created)][ip := left] == t[ip := left];
  }

  /** Purging twice is purging the union. */
  lemma PurgeTwice(t: Table, sweepStart: int, first: set<Ip>, second: set<Ip>)
    ensures Purge(Purge(t, sweepStart, first), sweepStart, second) == Purge(t, sweepStart, first + second)
  {
  }

  /** What is left after a purge of candidates of shard i. */
  lemma PurgeMeans(t: Table, sweepStart: int, toEvict: seq<Ip>, i: nat)
    ensures var u := Purge(t, sweepStart, Candidates(toEvict, i));
      && (forall ip :: ip in u <==>
            && ip in t
            && !(ip in toEvict && ShardIndex(ip) == i && t[ip].lastSeen < sweepStart - 300_000_000_000))
      && (forall ip :: ip in u ==> u[ip] == t[ip])
  {
    hide ShardIndex;
  }

  lemma PurgeOfOne(t: Table, sweepStart: int, ip: Ip, candidates: set<Ip>)
    requires candidates <= {ip}
    ensures Purge(t, sweepStart, candidates) ==
      if ip in candidates && ip in t && t[ip].lastSeen < sweepStart - IDLE_TIMEOUT then t - {ip} else t
  {
  }

  lemma PurgeOfNothing(t: Table, sweepStart: int, nothing: set<Ip>)
    requires nothing == {}
    ensures Purge(t, sweepStart, nothing) == t
  {
  }
}
