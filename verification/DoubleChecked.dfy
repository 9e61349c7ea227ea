/**
  Concurrent Allow calls of ratelimiter/token_bucket.go, split where goroutines can interleave: the lookup under the
  read lock, getOrCreate under the write lock, and consume under the bucket's lock.
 */
module DoubleChecked {
  import opened Fnv
  import opened TokenBucket
  import opened LimiterTable

  datatype Pc =
    | Looking(ip: Ip)
    | Missing(ip: Ip)               // the lookup found no bucket
    | Holding(ip: Ip, ref: nat)     // has a pointer to bucket object `ref`
    | Answered(ip: Ip, ref: nat)

  /** One finished consume: which object, at what time, with what answer. */
  datatype Entry = Entry(ip: Ip, ref: nat, now: int, ok: bool)

  /** heap[ref] is the state of bucket object ref, born at births[ref]. The log lists consumes in their order. */
  datatype State = State(table: map<Ip, nat>, heap: seq<Bucket>, births: seq<int>, gs: seq<Pc>, log: seq<Entry>)

  datatype Step =
    | Start(ip: Ip)
    | Lookup(g: nat)
    | GetOrCreate(g: nat, now: int)
    | Take(g: nat, now: int)
    | Sweep(victim: Ip, sweepStart: int)

  predicate Enabled(s: State, a: Step)
  {
    match a
    case Start(_) => true
    case Lookup(g) => g < |s.gs| && s.gs[g].Looking?
    case GetOrCreate(g, _) => g < |s.gs| && s.gs[g].Missing?
    case Take(g, _) => g < |s.gs| && s.gs[g].Holding? && s.gs[g].ref < |s.heap|
    case Sweep(ip, _) => ip in s.table ==> s.table[ip] < |s.heap|
  }

  predicate Evicts(s: State, a: Step)
    requires Enabled(s, a)
  {
    a.Sweep? && a.victim in s.table && s.heap[s.table[a.victim]].lastSeen < a.sweepStart - IDLE_TIMEOUT
  }

  function Next(l: Limits, s: State, a: Step): State
    requires Enabled(s, a)
  {
    match a
    case Start(ip) => s.(gs := s.gs + [Looking(ip)])
    case Lookup(g) =>
      var ip := s.gs[g].ip;
      s.(gs := s.gs[g := if ip in s.table then Holding(ip, s.table[ip]) else Missing(ip)])
    case GetOrCreate(g, now) =>
      var ip := s.gs[g].ip;
      if ip in s.table then s.(gs := s.gs[g := Holding(ip, s.table[ip])])
      else s.(table := s.table[ip := |s.heap|], heap := s.heap + [Full(l, now)], births := s.births + [now],
              gs := s.gs[g := Holding(ip, |s.heap|)])
    case Take(g, now) =>
      var r := s.gs[g].ref;
      var (b, ok) := Consume(l, s.heap[r], now);
      s.(heap := s.heap[r := b], gs := s.gs[g := Answered(s.gs[g].ip, r)],
         log := s.log + [Entry(s.gs[g].ip, r, now, ok)])
    case Sweep(ip, _) => if Evicts(s, a) then s.(table := s.table - {ip}) else s
  }

  function Init(): State { State(map[], [], [], [], []) }

  ghost predicate IsRun(l: Limits, states: seq<State>, acts: seq<Step>)
  {
    && |states| == |acts| + 1
    && states[0] == Init()
    && forall i :: 0 <= i < |acts| ==> Enabled(states[i], acts[i]) && states[i + 1] == Next(l, states[i], acts[i])
  }

  // ---- One object, one bucket ----

  function TimesOn(log: seq<Entry>, ref: nat): seq<int>
  {
    if log == [] then []
    else
      var n := |log| - 1;
      TimesOn(log[..n], ref) + if log[n].ref == ref then [log[n].now] else []
  }

  function AnswersOn(log: seq<Entry>, ref: nat): seq<bool>
  {
    if log == [] then []
    else
      var n := |log| - 1;
      AnswersOn(log[..n], ref) + if log[n].ref == ref then [log[n].ok] else []
  }

  /** Every object has answered its consumes as one token bucket, in the order of the consumes. */
  ghost predicate Faithful(l: Limits, s: State)
  {
    && |s.births| == |s.heap|
    && (forall i :: 0 <= i < |s.log| ==> s.log[i].ref < |s.heap|)
    && (forall g :: 0 <= g < |s.gs| && (s.gs[g].Holding? || s.gs[g].Answered?) ==> s.gs[g].ref < |s.heap|)
    && (forall ip :: ip in s.table ==> s.table[ip] < |s.heap|)
    && forall r :: 0 <= r < |s.heap| ==>
         && s.heap[r] == TokenBucket.After(l, Full(l, s.births[r]), TimesOn(s.log, r))
         && AnswersOn(s.log, r) == Decisions(l, Full(l, s.births[r]), TimesOn(s.log, r))
  }

  lemma LogOneMore(log: seq<Entry>, e: Entry, ref: nat)
    ensures TimesOn(log + [e], ref) == TimesOn(log, ref) + if e.ref == ref then [e.now] else []
    ensures AnswersOn(log + [e], ref) == AnswersOn(log, ref) + if e.ref == ref then [e.ok] else []
  {
    assert (log + [e])[..|log|] == log;
  }

  lemma {:induction false} NoTimesOn(log: seq<Entry>, ref: nat)
    requires forall i :: 0 <= i < |log| ==> log[i].ref < ref
    ensures TimesOn(log, ref) == [] && AnswersOn(log, ref) == []
  {
    if log != [] {
      NoTimesOn(log[..|log| - 1], ref);
    }
  }

  lemma OneCallMore(l: Limits, b: Bucket, times: seq<int>, now: int)
    ensures TokenBucket.After(l, b, times + [now]) == Consume(l, TokenBucket.After(l, b, times), now).0
    ensures Decisions(l, b, times + [now])
         == Decisions(l, b, times) + [Consume(l, TokenBucket.After(l, b, times), now).1]
  {
    assert (times + [now])[..|times|] == times;
  }

  /** What a consume leaves of object o. */
  lemma TakeKeepsObject(l: Limits, s: State, g: nat, now: int, o: nat)
    requires Faithful(l, s) && Enabled(s, Take(g, now)) && o < |s.heap|
    ensures var r := Next(l, s, Take(g, now));
      && r.heap[o] == TokenBucket.After(l, Full(l, r.births[o]), TimesOn(r.log, o))
      && AnswersOn(r.log, o) == Decisions(l, Full(l, r.births[o]), TimesOn(r.log, o))
  {
    hide Consume, TimesOn, AnswersOn, Decisions, TokenBucket.After, Full;
    var ref := s.gs[g].ref;
    LogOneMore(s.log, Entry(s.gs[g].ip, ref, now, Consume(l, s.heap[ref], now).1), o);
    var times, answers := TimesOn(s.log, o), AnswersOn(s.log, o);
    assert times + [] == times && answers + [] == answers;
    OneCallMore(l, Full(l, s.births[o]), times, now);
  }

  lemma StepKeepsFaithful(l: Limits, s: State, a: Step)
    requires Faithful(l, s) && Enabled(s, a)
    ensures Faithful(l, Next(l, s, a))
  {
    hide Consume, TimesOn, AnswersOn, Decisions, TokenBucket.After, Full;
    var r := Next(l, s, a);
    match a
    case Take(g, now) =>
      forall o: nat | o < |s.heap|
        ensures r.heap[o] == TokenBucket.After(l, Full(l, r.births[o]), TimesOn(r.log, o))
        ensures AnswersOn(r.log, o) == Decisions(l, Full(l, r.births[o]), TimesOn(r.log, o))
      {
        TakeKeepsObject(l, s, g, now, o);
      }
    case GetOrCreate(g, now) =>
      NoTimesOn(s.log, |s.heap|);
      NothingDecided(l, Full(l, now));
    case _ =>
  }

  lemma {:induction false} RunIsFaithful(l: Limits, states: seq<State>, acts: seq<Step>, i: nat)
    requires IsRun(l, states, acts) && i < |states|
    ensures Faithful(l, states[i])
  {
    if i > 0 {
      RunIsFaithful(l, states, acts, i - 1);
      StepKeepsFaithful(l, states[i - 1], acts[i - 1]);
    }
  }

  // ---- Where a bucket object comes from ----

  /** The goroutine has got a bucket for ip. */
  predicate Got(p: Pc, ip: Ip) { (p.Holding? || p.Answered?) && p.ip == ip }

  /** Bucket object ref serves ip: it is in the table, or a goroutine has it, or it has answered a call. */
  ghost predicate Known(s: State, ip: Ip, ref: nat)
  {
    || (ip in s.table && s.table[ip] == ref)
    || (exists g :: 0 <= g < |s.gs| && Got(s.gs[g], ip) && s.gs[g].ref == ref)
    || (exists n :: 0 <= n < |s.log| && s.log[n].ip == ip && s.log[n].ref == ref)
  }

  predicate Creates(s: State, a: Step, ip: Ip)
    requires Enabled(s, a)
  {
    a.GetOrCreate? && s.gs[a.g].ip == ip && ip !in s.table
  }

  ghost predicate CreatedAt(states: seq<State>, acts: seq<Step>, j: nat, ip: Ip)
  {
    j < |acts| && j < |states| && Enabled(states[j], acts[j]) && Creates(states[j], acts[j], ip)
  }

  ghost predicate EvictedAt(states: seq<State>, acts: seq<Step>, j: nat, ip: Ip)
  {
    j < |acts| && j < |states| && Enabled(states[j], acts[j]) && Evicts(states[j], acts[j]) && acts[j].victim == ip
  }

  lemma KnownStep(l: Limits, s: State, a: Step, ip: Ip, ref: nat)
    requires Enabled(s, a) && Known(Next(l, s, a), ip, ref)
    ensures Known(s, ip, ref) || (Creates(s, a, ip) && ref == |s.heap|)
  {
    hide Consume;
  }

  /** Every object that serves ip was created for it. */
  lemma {:induction false} Origin(l: Limits, states: seq<State>, acts: seq<Step>, i: nat, ip: Ip, ref: nat)
    returns (j: nat)
    requires IsRun(l, states, acts) && i < |states| && Known(states[i], ip, ref)
    ensures j < i && CreatedAt(states, acts, j, ip) && |states[j].heap| == ref
  {
    hide Known, Next;
    NothingKnown(ip, ref);
    if i > 0 {
      KnownStep(l, states[i - 1], acts[i - 1], ip, ref);
      if Known(states[i - 1], ip, ref) {
        j := Origin(l, states, acts, i - 1, ip, ref);
      } else {
        j := i - 1;
      }
    }
  }

  lemma NothingKnown(ip: Ip, ref: nat)
    ensures !Known(Init(), ip, ref)
  {
  }

  lemma {:induction false} HeapGrows(l: Limits, states: seq<State>, acts: seq<Step>, j: nat, k: nat)
    requires IsRun(l, states, acts) && j <= k < |states|
    ensures |states[j].heap| <= |states[k].heap|
    decreases k
  {
    hide Consume;
    if j < k {
      HeapGrows(l, states, acts, j, k - 1);
    }
  }

  /** Two creations make two objects. */
  lemma CreationsDiffer(l: Limits, states: seq<State>, acts: seq<Step>, j: nat, k: nat, ip: Ip, other: Ip)
    requires IsRun(l, states, acts) && CreatedAt(states, acts, j, ip) && CreatedAt(states, acts, k, other)
    requires j != k
    ensures |states[j].heap| != |states[k].heap|
  {
    if j < k {
      HeapGrows(l, states, acts, j + 1, k);
    } else {
      HeapGrows(l, states, acts, k + 1, j);
    }
  }

  /** No bucket object ever serves two IPs, however creations and evictions interleave. */
  lemma BucketsAreNotMixed(l: Limits, states: seq<State>, acts: seq<Step>, i: nat, ip: Ip, other: Ip, ref: nat)
    requires IsRun(l, states, acts) && i < |states|
    requires Known(states[i], ip, ref) && Known(states[i], other, ref)
    ensures ip == other
  {
    hide IsRun, Known;
    var j := Origin(l, states, acts, i, ip, ref);
    var k := Origin(l, states, acts, i, other, ref);
    if j != k {
      CreationsDiffer(l, states, acts, j, k, ip, other);
    }
  }

  /** Who creates an object keeps it. */
  lemma {:induction false} CreatorKeeps(l: Limits, states: seq<State>, acts: seq<Step>, j: nat, i: nat, ip: Ip)
    requires IsRun(l, states, acts) && j < i < |states| && CreatedAt(states, acts, j, ip)
    ensures var g := acts[j].g;
      g < |states[i].gs| && Got(states[i].gs[g], ip) && states[i].gs[g].ref == |states[j].heap|
    decreases i
  {
    hide Consume;
    if j < i - 1 {
      CreatorKeeps(l, states, acts, j, i - 1, ip);
    }
  }

  /** An object is born at the clock reading of its creation. */
  lemma {:induction false} BirthOf(l: Limits, states: seq<State>, acts: seq<Step>, j: nat, i: nat, ip: Ip)
    requires IsRun(l, states, acts) && j < i < |states| && CreatedAt(states, acts, j, ip)
    ensures var ref := |states[j].heap|;
      ref < |states[i].births| && states[i].births[ref] == acts[j].now
    decreases i
  {
    hide Consume, Faithful;
    if j < i - 1 {
      BirthOf(l, states, acts, j, i - 1, ip);
    } else {
      SameSizes(l, states, acts, j);
    }
  }

  lemma SameSizes(l: Limits, states: seq<State>, acts: seq<Step>, i: nat)
    requires IsRun(l, states, acts) && i < |states|
    ensures |states[i].births| == |states[i].heap|
  {
    RunIsFaithful(l, states, acts, i);
  }

  // ---- One IP, one object ----

  /** All goroutines that have got a bucket for ip have got the same one. */
  ghost predicate OneObject(s: State, ip: Ip)
  {
    forall g, h :: 0 <= g < |s.gs| && 0 <= h < |s.gs| && Got(s.gs[g], ip) && Got(s.gs[h], ip) ==>
      s.gs[g].ref == s.gs[h].ref
  }

  /** Before state i, no eviction of ip is followed by a creation for ip. */
  ghost predicate NeverReplaced(states: seq<State>, acts: seq<Step>, ip: Ip, i: nat)
  {
    forall m: nat, k: nat :: m < k < i && EvictedAt(states, acts, m, ip) ==> !CreatedAt(states, acts, k, ip)
  }

  /** An IP leaves the table only by an eviction. */
  lemma {:induction false} LeftByEviction(l: Limits, states: seq<State>, acts: seq<Step>, ip: Ip, a: nat, b: nat)
    returns (m: nat)
    requires IsRun(l, states, acts) && a <= b < |states|
    requires ip in states[a].table && ip !in states[b].table
    ensures a <= m < b && EvictedAt(states, acts, m, ip)
    decreases b
  {
    hide Consume;
    if ip in states[b - 1].table {
      m := b - 1;
    } else {
      m := LeftByEviction(l, states, acts, ip, a, b - 1);
    }
  }

  lemma CreatedOnce(l: Limits, states: seq<State>, acts: seq<Step>, ip: Ip, i: nat, j: nat, k: nat)
    requires IsRun(l, states, acts) && i < |states| && NeverReplaced(states, acts, ip, i)
    requires j < i && k < i && CreatedAt(states, acts, j, ip) && CreatedAt(states, acts, k, ip)
    ensures j == k
  {
    hide Consume;
    if j < k {
      var m := LeftByEviction(l, states, acts, ip, j + 1, k);
    } else if k < j {
      var m := LeftByEviction(l, states, acts, ip, k + 1, j);
    }
  }

  lemma OneKnown(l: Limits, states: seq<State>, acts: seq<Step>, ip: Ip, i: nat, ref: nat, other: nat)
    requires IsRun(l, states, acts) && i < |states| && NeverReplaced(states, acts, ip, i)
    requires Known(states[i], ip, ref) && Known(states[i], ip, other)
    ensures ref == other
  {
    hide IsRun, Known, NeverReplaced;
    var j := Origin(l, states, acts, i, ip, ref);
    var k := Origin(l, states, acts, i, ip, other);
    CreatedOnce(l, states, acts, ip, i, j, k);
  }

  /**
    Double-checked creation, exactly: in whatever interleaving of lookups, creations and evictions, all goroutines that
    race to serve an IP get one and the same bucket object if and only if no eviction of the IP is followed by a
    creation for it.
   */
  lemma OneObjectIff(l: Limits, states: seq<State>, acts: seq<Step>, ip: Ip, i: nat)
    requires IsRun(l, states, acts) && i < |states|
    ensures OneObject(states[i], ip) <==> NeverReplaced(states, acts, ip, i)
  {
    hide IsRun;
    if NeverReplaced(states, acts, ip, i) {
      var s := states[i];
      forall g, h | 0 <= g < |s.gs| && 0 <= h < |s.gs| && Got(s.gs[g], ip) && Got(s.gs[h], ip)
        ensures s.gs[g].ref == s.gs[h].ref
      {
        OneKnown(l, states, acts, ip, i, s.gs[g].ref, s.gs[h].ref);
      }
    } else {
      var m: nat, k: nat :| m < k < i && EvictedAt(states, acts, m, ip) && CreatedAt(states, acts, k, ip);
      var j := Origin(l, states, acts, m, ip, states[m].table[ip]);
      CreationsDiffer(l, states, acts, j, k, ip, ip);
      CreatorKeeps(l, states, acts, j, i, ip);
      CreatorKeeps(l, states, acts, k, i, ip);
    }
  }

  function TimesFor(log: seq<Entry>, ip: Ip): seq<int>
  {
    if log == [] then []
    else
      var n := |log| - 1;
      TimesFor(log[..n], ip) + if log[n].ip == ip then [log[n].now] else []
  }

  function AnswersFor(log: seq<Entry>, ip: Ip): seq<bool>
  {
    if log == [] then []
    else
      var n := |log| - 1;
      AnswersFor(log[..n], ip) + if log[n].ip == ip then [log[n].ok] else []
  }

  lemma {:induction false} SameEntries(log: seq<Entry>, ip: Ip, ref: nat)
    requires forall i :: 0 <= i < |log| ==> (log[i].ip == ip <==> log[i].ref == ref)
    ensures TimesFor(log, ip) == TimesOn(log, ref) && AnswersFor(log, ip) == AnswersOn(log, ref)
  {
    if log != [] {
      SameEntries(log[..|log| - 1], ip, ref);
    }
  }

  lemma {:induction false} NoEntries(log: seq<Entry>, ip: Ip)
    requires forall i :: 0 <= i < |log| ==> log[i].ip != ip
    ensures TimesFor(log, ip) == [] && AnswersFor(log, ip) == []
  {
    if log != [] {
      NoEntries(log[..|log| - 1], ip);
    }
  }

  /** The calls for ip, when all are answered by one object. */
  lemma AnsweredByOne(l: Limits, states: seq<State>, acts: seq<Step>, ip: Ip, i: nat, ref: nat)
    requires IsRun(l, states, acts) && i < |states| && NeverReplaced(states, acts, ip, i) && Known(states[i], ip, ref)
    ensures var s := states[i];
      && ref < |s.births|
      && AnswersFor(s.log, ip) == Decisions(l, Full(l, s.births[ref]), TimesFor(s.log, ip))
  {
    hide IsRun, Decisions, NeverReplaced;
    var s := states[i];
    RunIsFaithful(l, states, acts, i);
    forall n | 0 <= n < |s.log|
      ensures s.log[n].ip == ip <==> s.log[n].ref == ref
    {
      assert Known(s, s.log[n].ip, s.log[n].ref);
      if s.log[n].ip == ip {
        OneKnown(l, states, acts, ip, i, ref, s.log[n].ref);
      } else if s.log[n].ref == ref {
        BucketsAreNotMixed(l, states, acts, i, ip, s.log[n].ip, ref);
      }
    }
    SameEntries(s.log, ip, ref);
  }

  /**
    Linearizability of Allow under any clock: unless an eviction of ip is followed by a new bucket, concurrent calls for
    ip are answered, in the order of their consumes, as by one token bucket that was full when it was created, and no
    consumed token is lost to a racing creation.
   */
  lemma AllowIsLinearizable(l: Limits, states: seq<State>, acts: seq<Step>, ip: Ip, i: nat) returns (birth: int)
    requires IsRun(l, states, acts) && i < |states| && NeverReplaced(states, acts, ip, i)
    ensures forall j: nat :: j < i && CreatedAt(states, acts, j, ip) ==> birth == acts[j].now
    ensures var log := states[i].log;
      AnswersFor(log, ip) == Decisions(l, Full(l, birth), TimesFor(log, ip))
  {
    hide IsRun, Decisions, NeverReplaced, Known;
    var s := states[i];
    if j: nat :| j < i && CreatedAt(states, acts, j, ip) {
      CreatorKeeps(l, states, acts, j, i, ip);
      BirthOf(l, states, acts, j, i, ip);
      birth := acts[j].now;
      GotIsKnown(s, acts[j].g, ip);
      AnsweredByOne(l, states, acts, ip, i, |states[j].heap|);
      forall k: nat | k < i && CreatedAt(states, acts, k, ip)
        ensures k == j
      {
        CreatedOnce(l, states, acts, ip, i, j, k);
      }
    } else {
      birth := 0;
      forall n | 0 <= n < |s.log|
        ensures s.log[n].ip != ip
      {
        if s.log[n].ip == ip {
          LoggedIsKnown(s, n);
          var j := Origin(l, states, acts, i, ip, s.log[n].ref);
        }
      }
      NoEntries(s.log, ip);
      NothingDecided(l, Full(l, birth));
    }
  }

  lemma GotIsKnown(s: State, g: nat, ip: Ip)
    requires g < |s.gs| && Got(s.gs[g], ip)
    ensures Known(s, ip, s.gs[g].ref)
  {
  }

  lemma LoggedIsKnown(s: State, n: nat)
    requires n < |s.log|
    ensures Known(s, s.log[n].ip, s.log[n].ref)
  {
  }

  lemma NothingDecided(l: Limits, b: Bucket)
    ensures TokenBucket.After(l, b, []) == b && Decisions(l, b, []) == []
  {
  }

  // ---- Undisturbed, the steps are those of the single map ----

  /** The state of the bucket of each IP. */
  ghost function TableOf(s: State): Table
    requires forall ip :: ip in s.table ==> s.table[ip] < |s.heap|
  {
    map ip | ip in s.table :: s.heap[s.table[ip]]
  }

  /** The steps of one call, with nothing between them. */
  function Undisturbed(l: Limits, s: State, ip: Ip, created: int, now: int): State
    requires forall ip :: ip in s.table ==> s.table[ip] < |s.heap|
  {
    var g := |s.gs|;
    var looked := Next(l, Next(l, s, Start(ip)), Lookup(g));
    var got := if looked.gs[g].Missing? then Next(l, looked, GetOrCreate(g, created)) else looked;
    Next(l, got, Take(g, now))
  }

  lemma TableIsSound(l: Limits, states: seq<State>, acts: seq<Step>, i: nat)
    requires IsRun(l, states, acts) && i < |states|
    ensures OwnObjects(states[i])
  {
    hide IsRun;
    var s := states[i];
    RunIsFaithful(l, states, acts, i);
    forall ip, other | ip in s.table && other in s.table && s.table[ip] == s.table[other]
      ensures ip == other
    {
      BucketsAreNotMixed(l, states, acts, i, ip, other, s.table[ip]);
    }
  }

  /** Each IP in the table has an object of its own. */
  ghost predicate OwnObjects(s: State)
  {
    && (forall ip :: ip in s.table ==> s.table[ip] < |s.heap|)
    && (forall ip, other :: ip in s.table && other in s.table && ip != other ==> s.table[ip] != s.table[other])
  }

  /** Where an undisturbed call finds its object, or puts it. */
  lemma UndisturbedSteps(l: Limits, s: State, ip: Ip, created: int, now: int)
    requires OwnObjects(s)
    ensures var r := Undisturbed(l, s, ip, created, now);
      var ref := if ip in s.table then s.table[ip] else |s.heap|;
      var heap := if ip in s.table then s.heap else s.heap + [Full(l, created)];
      var (left, ok) := Consume(l, heap[ref], now);
      r.table == s.table[ip := ref] && r.heap == heap[ref := left] && r.log == s.log + [Entry(ip, ref, now, ok)]
  {
    hide Consume, Full;
    assert ip in s.table ==> s.table[ip := s.table[ip]] == s.table;
  }

  /** The steps of an undisturbed call are one Allow of the single map, and so is its answer. */
  lemma UndisturbedIsAllow(l: Limits, states: seq<State>, acts: seq<Step>, i: nat, ip: Ip, created: int, now: int)
    requires IsRun(l, states, acts) && i < |states|
    ensures var s := states[i];
      && (forall ip :: ip in s.table ==> s.table[ip] < |s.heap|)
      && var r := Undisturbed(l, s, ip, created, now);
         var (table, ok) := Allow(l, TableOf(s), ip, created, now);
      && (forall ip :: ip in r.table ==> r.table[ip] < |r.heap|) && TableOf(r) == table
      && ip in r.table && r.log == s.log + [Entry(ip, r.table[ip], now, ok)]
  {
    hide Consume, IsRun, Undisturbed, Full;
    TableIsSound(l, states, acts, i);
    UndisturbedSteps(l, states[i], ip, created, now);
  }

  /** The step of a sweep is a purge of the single map. */
  lemma SweepIsPurge(l: Limits, states: seq<State>, acts: seq<Step>, i: nat, victim: Ip, sweepStart: int)
    requires IsRun(l, states, acts) && i < |states|
    ensures var s := states[i];
      && (forall ip :: ip in s.table ==> s.table[ip] < |s.heap|)
      && var r := Next(l, s, Sweep(victim, sweepStart));
      && (forall ip :: ip in r.table ==> r.table[ip] < |r.heap|)
      && TableOf(r) == Purge(TableOf(s), sweepStart, {victim})
  {
    hide IsRun;
    TableIsSound(l, states, acts, i);
  }
}
