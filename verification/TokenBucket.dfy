/**
  The token bucket of ratelimiter/token_bucket.go: lazy refill and consumption of one token, and what a sequence of
  calls to one bucket decides. Token counts are reals, so float64 rounding is not modelled; times are nanoseconds.
 */
module TokenBucket {

  /** ratePerNano and burstSize of a Limiter. */
  datatype Limits = Limits(ratePerNano: real, burst: nat)
  {
    predicate Valid() { ratePerNano > 0.0 && burst > 0 }
  }

  datatype Bucket = Bucket(tokens: real, lastRefill: int, lastSeen: int)

  /** The bucket that getOrCreate makes. */
  function Full(l: Limits, now: int): Bucket
  {
    Bucket(l.burst as real, now, now)
  }

  ghost predicate WithinBurst(l: Limits, b: Bucket)
  {
    0.0 <= b.tokens <= l.burst as real
  }

  /** Tokens that accumulate in a span of time. */
  function Gain(l: Limits, span: int): real
  {
    span as real * l.ratePerNano
  }

  function Capped(l: Limits, tokens: real): real
  {
    if tokens > l.burst as real then l.burst as real else tokens
  }

  /** The lazy refill, with its guard against a clock that stepped back. */
  function Refill(l: Limits, b: Bucket, now: int): Bucket
  {
    if now - b.lastRefill > 0 then
      b.(tokens := Capped(l, b.tokens + Gain(l, now - b.lastRefill)), lastRefill := now)
    else b
  }

  /** One call of consume at time now: the new bucket and whether the call is allowed. */
  function Consume(l: Limits, b: Bucket, now: int): (Bucket, bool)
  {
    var f := Refill(l, b, now).(lastSeen := now);
    if f.tokens >= 1.0 then (f.(tokens := f.tokens - 1.0), true) else (f, false)
  }

  /** The bucket after calls at the given times. */
  function After(l: Limits, b: Bucket, times: seq<int>): Bucket
  {
    if times == [] then b
    else Consume(l, After(l, b, times[..|times| - 1]), times[|times| - 1]).0
  }

  /** Which of the calls at the given times are allowed. */
  function Decisions(l: Limits, b: Bucket, times: seq<int>): (oks: seq<bool>)
    ensures |oks| == |times|
  {
    if times == [] then []
    else
      var n := |times| - 1;
      Decisions(l, b, times[..n]) + [Consume(l, After(l, b, times[..n]), times[n]).1]
  }

  function Bit(b: bool): nat { if b then 1 else 0 }

  function Allowed(oks: seq<bool>): nat
  {
    if oks == [] then 0 else Allowed(oks[..|oks| - 1]) + Bit(oks[|oks| - 1])
  }

  /** A clock that reads start first and never steps back. */
  ghost predicate NeverBack(start: int, times: seq<int>)
  {
    && (forall i :: 0 <= i < |times| ==> start <= times[i])
    && (forall i, j :: 0 <= i <= j < |times| ==> times[i] <= times[j])
  }

  function Last(start: int, times: seq<int>): int
  {
    if times == [] then start else times[|times| - 1]
  }

  // ---- Arithmetic and prefixes ----

  lemma GainAdds(l: Limits, x: int, y: int)
    ensures Gain(l, x + y) == Gain(l, x) + Gain(l, y)
  {
  }

  lemma GainMonotone(l: Limits, x: int, y: int)
    requires l.Valid() && x <= y
    ensures Gain(l, x) <= Gain(l, y)
  {
  }

  lemma {:induction false} DecisionsPrefix(l: Limits, b: Bucket, times: seq<int>, n: nat)
    requires n <= |times|
    ensures Decisions(l, b, times)[..n] == Decisions(l, b, times[..n])
    ensures n < |times| ==> Decisions(l, b, times)[n] == Consume(l, After(l, b, times[..n]), times[n]).1
  {
    var m := |times| - 1;
    if n == |times| {
      assert times[..n] == times;
    } else if n < m {
      assert times[..m][..n] == times[..n];
      DecisionsPrefix(l, b, times[..m], n);
      assert Decisions(l, b, times)[..n] == Decisions(l, b, times[..m])[..n];
    }
  }

  // ---- Any clock ----

  lemma ConsumeBound(l: Limits, b: Bucket, now: int)
    requires l.Valid() && WithinBurst(l, b)
    ensures var (f, ok) := Consume(l, b, now);
      && WithinBurst(l, f)
      && f.lastRefill == (if now > b.lastRefill then now else b.lastRefill)
      && f.tokens + Bit(ok) as real <= b.tokens + Gain(l, f.lastRefill - b.lastRefill)
  {
    assert Gain(l, 0) == 0.0;
    if now > b.lastRefill {
      GainMonotone(l, 0, now - b.lastRefill);
    }
  }

  lemma {:induction false} AnyClockGain(l: Limits, b: Bucket, times: seq<int>)
    requires l.Valid() && WithinBurst(l, b)
    ensures var f := After(l, b, times);
      && WithinBurst(l, f)
      && Allowed(Decisions(l, b, times)) as real + f.tokens <= b.tokens + Gain(l, f.lastRefill - b.lastRefill)
      && b.lastRefill <= f.lastRefill && (forall t :: t in times ==> t <= f.lastRefill)
      && (f.lastRefill == b.lastRefill || f.lastRefill in times)
  {
    if times == [] {
      assert Gain(l, 0) == 0.0;
    } else {
      var n := |times| - 1;
      AnyClockGain(l, b, times[..n]);
      var f, g := After(l, b, times[..n]), After(l, b, times);
      assert Decisions(l, b, times)[..n] == Decisions(l, b, times[..n]);
      ConsumeBound(l, f, times[n]);
      GainAdds(l, f.lastRefill - b.lastRefill, g.lastRefill - f.lastRefill);
      hide Gain, Consume;
      assert forall t :: t in times ==> t in times[..n] || t == times[n];
    }
  }

  /**
    Whatever the clock does, even stepping back: the bucket stays between empty and full, and a bucket pays for every
    allowed call out of what it held and what it gained while its refill time advanced to the latest time seen.
   */
  lemma AnyClockBound(l: Limits, b: Bucket, times: seq<int>)
    requires l.Valid() && WithinBurst(l, b)
    ensures var f := After(l, b, times);
      && WithinBurst(l, f)
      && Allowed(Decisions(l, b, times)) as real + f.tokens
           <= b.tokens + (f.lastRefill - b.lastRefill) as real * l.ratePerNano
      && b.lastRefill <= f.lastRefill && (forall t :: t in times ==> t <= f.lastRefill)
      && (f.lastRefill == b.lastRefill || f.lastRefill in times)
  {
    hide After, Decisions, Allowed, WithinBurst;
    AnyClockGain(l, b, times);
  }

  // ---- Lazy refill is ideal refill ----

  /** Refilling on the way changes nothing: two lazy refills are one. */
  lemma RefillComposes(l: Limits, b: Bucket, s: int, t: int)
    requires l.Valid() && b.tokens <= l.burst as real && b.lastRefill <= s <= t
    ensures Refill(l, Refill(l, b, s), t) == Refill(l, b, t)
  {
    GainAdds(l, s - b.lastRefill, t - s);
    GainMonotone(l, 0, t - s);
    GainMonotone(l, 0, s - b.lastRefill);
  }

  function RefillAt(l: Limits, b: Bucket, ticks: seq<int>): Bucket
  {
    if ticks == [] then b else Refill(l, RefillAt(l, b, ticks[..|ticks| - 1]), ticks[|ticks| - 1])
  }

  /** A background ticker that refills as often as it likes gives what one lazy refill at the end gives. */
  lemma {:induction false} LazyEqualsTicker(l: Limits, b: Bucket, ticks: seq<int>, now: int)
    requires l.Valid() && b.tokens <= l.burst as real
    requires NeverBack(b.lastRefill, ticks) && Last(b.lastRefill, ticks) <= now
    ensures Refill(l, RefillAt(l, b, ticks), now) == Refill(l, b, now)
  {
    if ticks != [] {
      var n := |ticks| - 1;
      LazyEqualsTicker(l, b, ticks[..n], ticks[n]);
      RefillComposes(l, b, ticks[n], now);
    }
  }

  // ---- The exact window characterisation ----

  /** With a clock that never steps back, the bucket is refilled up to the last call. */
  lemma AfterOnTime(l: Limits, b: Bucket, times: seq<int>)
    requires l.Valid() && WithinBurst(l, b) && NeverBack(b.lastRefill, times)
    ensures WithinBurst(l, After(l, b, times))
    ensures After(l, b, times).lastRefill == Last(b.lastRefill, times)
  {
    AnyClockGain(l, b, times);
    if times != [] {
      assert times[|times| - 1] in times;
    }
  }

  /** What is left for call n of the budget of the window that opens with call i. */
  function Slack(l: Limits, times: seq<int>, oks: seq<bool>, i: nat, n: nat): real
    requires i <= n < |times| && |oks| == |times|
  {
    l.burst as real + Gain(l, times[n] - times[i]) - Allowed(oks[i..n]) as real
  }

  lemma SlackStep(l: Limits, times: seq<int>, oks: seq<bool>, i: nat, n: nat)
    requires i <= n && n + 1 < |times| && |oks| == |times|
    ensures Slack(l, times, oks, i, n + 1)
         == Slack(l, times, oks, i, n) - Bit(oks[n]) as real + Gain(l, times[n + 1] - times[n])
  {
    assert oks[i..n + 1][..n - i] == oks[i..n];
    GainAdds(l, times[n] - times[i], times[n + 1] - times[n]);
  }

  /** The tokens that call n finds, after its refill. */
  function TokensAt(l: Limits, b: Bucket, times: seq<int>, n: nat): real
    requires n < |times|
  {
    Refill(l, After(l, b, times[..n]), times[n]).tokens
  }

  lemma RefillOnTime(l: Limits, b: Bucket, now: int)
    requires b.tokens <= l.burst as real && b.lastRefill <= now
    ensures Refill(l, b, now).tokens == Capped(l, b.tokens + Gain(l, now - b.lastRefill))
  {
    assert Gain(l, 0) == 0.0;
  }

  lemma TokensLeft(l: Limits, b: Bucket, times: seq<int>, n: nat)
    requires n < |times|
    ensures After(l, b, times[..n + 1]).tokens == TokensAt(l, b, times, n) - Bit(Decisions(l, b, times)[n]) as real
  {
    hide Gain, Capped;
    DecisionsPrefix(l, b, times, n);
    assert times[..n + 1][..n] == times[..n];
  }

  lemma TokensStep(l: Limits, b: Bucket, times: seq<int>, n: nat)
    requires l.Valid() && WithinBurst(l, b) && NeverBack(b.lastRefill, times) && n + 1 < |times|
    ensures TokensAt(l, b, times, n + 1) ==
      Capped(l, TokensAt(l, b, times, n) - Bit(Decisions(l, b, times)[n]) as real + Gain(l, times[n + 1] - times[n]))
  {
    hide Gain, Capped, After, Decisions, Refill;
    TokensLeft(l, b, times, n);
    AfterOnTime(l, b, times[..n + 1]);
    RefillOnTime(l, After(l, b, times[..n + 1]), times[n + 1]);
  }

  lemma ShortestWindow(l: Limits, times: seq<int>, oks: seq<bool>, n: nat)
    requires n < |times| && |oks| == |times|
    ensures Slack(l, times, oks, n, n) == l.burst as real
  {
    assert Gain(l, 0) == 0.0;
  }

  lemma FirstTokens(l: Limits, start: int, times: seq<int>)
    requires l.Valid() && NeverBack(start, times) && times != []
    ensures TokensAt(l, Full(l, start), times, 0) == l.burst as real
  {
    GainMonotone(l, 0, times[0] - start);
    assert Gain(l, 0) == 0.0;
  }

  /** From a full bucket, the tokens at call n are the least slack of all windows that end there. */
  lemma {:induction false} TokensAreLeastSlack(l: Limits, start: int, times: seq<int>, n: nat)
    returns (tightest: nat)
    requires l.Valid() && NeverBack(start, times) && n < |times|
    ensures var b := Full(l, start);
      var oks := Decisions(l, b, times);
      && (forall i :: 0 <= i <= n ==> TokensAt(l, b, times, n) <= Slack(l, times, oks, i, n))
      && tightest <= n && TokensAt(l, b, times, n) == Slack(l, times, oks, tightest, n)
  {
    hide TokensAt, Slack, Gain, Decisions, NeverBack;
    var b := Full(l, start);
    var oks := Decisions(l, b, times);
    ShortestWindow(l, times, oks, n);
    if n == 0 {
      FirstTokens(l, start, times);
      tightest := 0;
    } else {
      tightest := TokensAreLeastSlack(l, start, times, n - 1);
      TokensStep(l, b, times, n - 1);
      forall i | 0 <= i <= n - 1
        ensures Slack(l, times, oks, i, n)
             == Slack(l, times, oks, i, n - 1) - Bit(oks[n - 1]) as real + Gain(l, times[n] - times[n - 1])
      {
        SlackStep(l, times, oks, i, n - 1);
      }
      if Slack(l, times, oks, tightest, n) > l.burst as real {
        tightest := n;
      }
    }
  }

  /** A decision sequence that never exceeds the budget of any window. */
  ghost predicate Conforms(l: Limits, times: seq<int>, oks: seq<bool>)
    requires |oks| == |times|
  {
    forall i, n :: 0 <= i <= n < |times| && oks[n] ==> Slack(l, times, oks, i, n) >= 1.0
  }

  lemma AllowedWhen(l: Limits, b: Bucket, times: seq<int>, n: nat)
    requires n < |times|
    ensures Decisions(l, b, times)[n] <==> TokensAt(l, b, times, n) >= 1.0
  {
    hide Gain, Capped;
    DecisionsPrefix(l, b, times, n);
  }

  lemma AllowedInWindows(l: Limits, start: int, times: seq<int>, n: nat)
    requires l.Valid() && NeverBack(start, times) && n < |times|
    ensures var oks := Decisions(l, Full(l, start), times);
      oks[n] <==> forall i :: 0 <= i <= n ==>
        Allowed(oks[i..n]) as real + 1.0 <= l.burst as real + Gain(l, times[n] - times[i])
  {
    hide Gain, Decisions, Allowed, TokensAt;
    var oks := Decisions(l, Full(l, start), times);
    var tightest := TokensAreLeastSlack(l, start, times, n);
    AllowedWhen(l, Full(l, start), times, n);
    if oks[n] {
      forall i | 0 <= i <= n
        ensures Allowed(oks[i..n]) as real + 1.0 <= l.burst as real + Gain(l, times[n] - times[i])
      {
        assert Slack(l, times, oks, i, n) >= 1.0;
      }
    } else {
      assert Slack(l, times, oks, tightest, n) < 1.0;
    }
  }

  /**
    The exact rule of the limiter: call n is allowed if and only if, for every window that ends with it, the calls
    allowed in that window and this one fit in burst + rate x length.
   */
  lemma AllowedIff(l: Limits, start: int, times: seq<int>, n: nat)
    requires l.Valid() && NeverBack(start, times) && n < |times|
    ensures var oks := Decisions(l, Full(l, start), times);
      oks[n] <==> forall i :: 0 <= i <= n ==>
        Allowed(oks[i..n]) as real + 1.0 <= l.burst as real + (times[n] - times[i]) as real * l.ratePerNano
  {
    hide Decisions, Allowed;
    AllowedInWindows(l, start, times, n);
    assert forall i :: 0 <= i <= n ==> Gain(l, times[n] - times[i]) == (times[n] - times[i]) as real * l.ratePerNano;
  }

  /** A bucket without a whole token lets the next call through exactly when enough has accumulated meanwhile. */
  lemma NextTokenIff(l: Limits, b: Bucket, now: int)
    requires l.Valid() && WithinBurst(l, b) && b.tokens < 1.0
    ensures Consume(l, b, now).1
       <==> now > b.lastRefill && b.tokens + (now - b.lastRefill) as real * l.ratePerNano >= 1.0
  {
    assert Gain(l, now - b.lastRefill) == (now - b.lastRefill) as real * l.ratePerNano;
  }

  lemma {:induction false} AllowedSplit(oks: seq<bool>, i: nat, n: nat)
    requires i <= n <= |oks|
    ensures Allowed(oks[..n]) == Allowed(oks[..i]) + Allowed(oks[i..n])
  {
    if i < n {
      AllowedSplit(oks, i, n - 1);
      assert oks[..n][..n - 1] == oks[..n - 1];
      assert oks[i..n][..n - 1 - i] == oks[i..n - 1];
    }
  }

  /**
    The limiter is the most permissive one: no decision sequence that respects the budget of every window has
    allowed more calls at any moment.
   */
  lemma {:induction false} MostPermissive(l: Limits, start: int, times: seq<int>, other: seq<bool>, n: nat)
    requires l.Valid() && NeverBack(start, times) && |other| == |times| && Conforms(l, times, other)
    requires n <= |times|
    ensures Conforms(l, times, Decisions(l, Full(l, start), times))
    ensures Allowed(other[..n]) <= Allowed(Decisions(l, Full(l, start), times)[..n])
    decreases n
  {
    hide Gain, Decisions;
    var oks := Decisions(l, Full(l, start), times);
    forall i, m | 0 <= i <= m < |times| && oks[m]
      ensures Slack(l, times, oks, i, m) >= 1.0
    {
      AllowedInWindows(l, start, times, m);
    }
    if n > 0 {
      var m := n - 1;
      forall j | 0 <= j <= m
        ensures Allowed(other[..j]) <= Allowed(oks[..j])
      {
        MostPermissive(l, start, times, other, j);
      }
      assert oks[..n][..m] == oks[..m] && other[..n][..m] == other[..m];
      if other[m] && !oks[m] {
        AllowedInWindows(l, start, times, m);
        var i :| 0 <= i <= m
          && Allowed(oks[i..m]) as real + 1.0 > l.burst as real + Gain(l, times[m] - times[i]);
        assert Slack(l, times, other, i, m) >= 1.0;
        AllowedSplit(oks, i, m);
        AllowedSplit(other, i, m);
      }
    }
  }

  // ---- Denied calls leave no trace ----

  /** The elements of s whose flag is set. */
  function Select<T>(s: seq<T>, keep: seq<bool>): (r: seq<T>)
    requires |s| == |keep|
  {
    if s == [] then []
    else
      var n := |s| - 1;
      Select(s[..n], keep[..n]) + if keep[n] then [s[n]] else []
  }

  /** From time t on the two buckets cannot be told apart. */
  ghost predicate SameFrom(l: Limits, b: Bucket, c: Bucket, t: int)
  {
    && WithinBurst(l, b) && WithinBurst(l, c)
    && b.lastRefill <= t && c.lastRefill <= t
    && Refill(l, b, t).tokens == Refill(l, c, t).tokens
  }

  lemma SameLater(l: Limits, b: Bucket, c: Bucket, t: int, now: int)
    requires l.Valid() && SameFrom(l, b, c, t) && t <= now
    ensures SameFrom(l, b, c, now)
    ensures Consume(l, b, now) == Consume(l, c, now)
  {
    RefillComposes(l, b, t, now);
    RefillComposes(l, c, t, now);
  }

  lemma DeniedCallOnlyRefills(l: Limits, b: Bucket, c: Bucket, t: int)
    requires l.Valid() && SameFrom(l, b, c, t) && !Consume(l, b, t).1
    ensures SameFrom(l, Consume(l, b, t).0, c, t)
  {
    ConsumeBound(l, b, t);
  }

  /**
    Rejected calls could as well not have happened: with a clock that does not step back, dropping any of them leaves
    every other decision as it was and the bucket indistinguishable afterwards.
   */
  lemma {:induction false} DeniedCallsLeaveNoTrace(l: Limits, b: Bucket, times: seq<int>, keep: seq<bool>)
    requires l.Valid() && WithinBurst(l, b) && NeverBack(b.lastRefill, times)
    requires |keep| == |times|
    requires forall i :: 0 <= i < |times| && Decisions(l, b, times)[i] ==> keep[i]
    ensures Decisions(l, b, Select(times, keep)) == Select(Decisions(l, b, times), keep)
    ensures SameFrom(l, After(l, b, times), After(l, b, Select(times, keep)), Last(b.lastRefill, times))
  {
    if times != [] {
      var n := |times| - 1;
      var oks := Decisions(l, b, times);
      assert oks[..n] == Decisions(l, b, times[..n]);
      DeniedCallsLeaveNoTrace(l, b, times[..n], keep[..n]);
      var f, g := After(l, b, times[..n]), After(l, b, Select(times[..n], keep[..n]));
      var last := Last(b.lastRefill, times[..n]);
      SameLater(l, f, g, last, times[n]);
      ConsumeBound(l, f, times[n]);
      var kept := Select(times, keep);
      if keep[n] {
        assert kept[..|kept| - 1] == Select(times[..n], keep[..n]);
      } else {
        DeniedCallOnlyRefills(l, f, g, times[n]);
        assert kept == Select(times[..n], keep[..n]);
        assert Select(oks, keep) == Select(oks[..n], keep[..n]);
      }
    }
  }
}
