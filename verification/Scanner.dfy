/** The byte-level helpers of stripper/stripper.go: case-insensitive prefix match and substring search. */
module Scanner {

  newtype byte = b: int | 0 <= b < 256

  type Bytes = seq<byte>

  /** A string literal of the source as bytes. */
  function Ascii(s: string): (b: Bytes)
    requires forall i :: 0 <= i < |s| ==> s[i] as int < 256
    ensures |b| == |s| && forall i :: 0 <= i < |s| ==> b[i] as int == s[i] as int
  {
    seq(|s|, i requires 0 <= i < |s| => s[i] as int as byte)
  }

  const LT: byte := '<' as int as byte
  const GT: byte := '>' as int as byte

  function Lower(c: byte): byte
  {
    if 'A' as int as byte <= c <= 'Z' as int as byte then c + 32 else c
  }

  function LowerAll(b: Bytes): (r: Bytes)
    ensures |r| == |b| && forall i :: 0 <= i < |b| ==> r[i] == Lower(b[i])
  {
    seq(|b|, i requires 0 <= i < |b| => Lower(b[i]))
  }

  /** The bytes of b at i spell target, up to case. The targets of the source are lower case. */
  predicate MatchAt(b: Bytes, i: nat, target: Bytes)
  {
    i + |target| <= |b| && forall j :: 0 <= j < |target| ==> Lower(b[i + j]) == target[j]
  }

  /** What may follow a tag name. */
  predicate Boundary(c: byte)
  {
    c == GT || c == ' ' as int as byte || c == '\t' as int as byte || c == '\n' as int as byte ||
    c == '\r' as int as byte || c == '/' as int as byte
  }

  predicate TagPrefix(b: Bytes, prefix: Bytes)
  {
    MatchAt(b, 0, prefix) && (|b| > |prefix| ==> Boundary(b[|prefix|]))
  }

  lemma LowerMeans(c: byte, t: byte)
    ensures Lower(c) == t <==> (c == t && !(65 <= c <= 90)) || (97 <= t <= 122 && c == t - 32)
  {
  }

  lemma MatchMeans(b: Bytes, i: nat, target: Bytes)
    ensures MatchAt(b, i, target) <==>
      && i + |target| <= |b|
      && forall j :: 0 <= j < |target| ==>
           || (b[i + j] == target[j] && !(65 <= b[i + j] <= 90))
           || (97 <= target[j] <= 122 && b[i + j] == target[j] - 32)
  {
    hide Lower;
    if i + |target| <= |b| {
      forall j | 0 <= j < |target|
        ensures Lower(b[i + j]) == target[j] <==>
          || (b[i + j] == target[j] && !(65 <= b[i + j] <= 90))
          || (97 <= target[j] <= 122 && b[i + j] == target[j] - 32)
      {
        LowerMeans(b[i + j], target[j]);
      }
    }
  }

  lemma TagPrefixMeans(b: Bytes, prefix: Bytes)
    ensures TagPrefix(b, prefix) <==>
      && |b| >= |prefix|
      && (forall j :: 0 <= j < |prefix| ==>
            || (b[j] == prefix[j] && !(65 <= b[j] <= 90))
            || (97 <= prefix[j] <= 122 && b[j] == prefix[j] - 32))
      && (|b| == |prefix| || b[|prefix|] as int in {62, 32, 9, 10, 13, 47})
  {
    hide Lower, MatchAt;
    MatchMeans(b, 0, prefix);
    assert forall j :: 0 <= j < |prefix| && |b| >= |prefix| ==> b[0 + j] == b[j];
  }

  /**
    A byte matches if it is the byte of the prefix, or the capital of a letter of the prefix; a tag name ends at the
    end, or before one of '>', ' ', tab, line feed, carriage return and '/'.
   */
  method HasTagPrefix(b: Bytes, prefix: Bytes) returns (r: bool)
    ensures r <==> TagPrefix(b, prefix)
    ensures r <==>
      && |b| >= |prefix|
      && (forall j {:trigger prefix[j]} :: 0 <= j < |prefix| ==>
            || (b[j] == prefix[j] && !(65 <= b[j] <= 90))
            || (97 <= prefix[j] <= 122 && b[j] == prefix[j] - 32))
      && (|b| == |prefix| || b[|prefix|] as int in {62, 32, 9, 10, 13, 47})
  {
    TagPrefixMeans(b, prefix);
    if |b| < |prefix| {
      return false;
    }
    for i := 0 to |prefix|
      invariant forall j :: 0 <= j < i ==> Lower(b[j]) == prefix[j]
    {
      var c := b[i];
      if c >= 'A' as int as byte && c <= 'Z' as int as byte {
        c := c + 32;
      }
      if c != prefix[i] {
        assert Lower(b[0 + i]) != prefix[i];
        return false;
      }
    }
    if |b| > |prefix| {
      var next := b[|prefix|];
      if next != GT && next != ' ' as int as byte && next != '\t' as int as byte && next != '\n' as int as byte
         && next != '\r' as int as byte && next != '/' as int as byte {
        return false;
      }
    }
    return true;
  }

  /** The first place at or after i where target occurs, or -1. */
  function IndexFoldFrom(b: Bytes, target: Bytes, i: nat): (r: int)
    requires i <= |b|
    ensures r == -1 || i <= r <= |b| - |target|
    decreases |b| - i
  {
    if i + |target| > |b| then -1
    else if MatchAt(b, i, target) then i
    else IndexFoldFrom(b, target, i + 1)
  }

  function IndexFold(b: Bytes, target: Bytes): (r: int)
    ensures r == -1 || 0 <= r <= |b| - |target|
  {
    IndexFoldFrom(b, target, 0)
  }

  lemma {:induction false} IndexFoldFromIsFirst(b: Bytes, target: Bytes, i: nat)
    requires i <= |b|
    ensures var r := IndexFoldFrom(b, target, i);
      && (r >= 0 ==> MatchAt(b, r, target))
      && forall k :: i <= k && (k < r || r == -1) ==> !MatchAt(b, k, target)
    decreases |b| - i
  {
    if i + |target| <= |b| && !MatchAt(b, i, target) {
      IndexFoldFromIsFirst(b, target, i + 1);
    }
  }

  /** The first place where target occurs up to case; -1 exactly if it occurs nowhere. */
  lemma IndexFoldIsFirst(b: Bytes, target: Bytes)
    ensures var r := IndexFold(b, target);
      && (r >= 0 ==> MatchAt(b, r, target) && forall k: nat :: k < r ==> !MatchAt(b, k, target))
      && (r == -1 <==> forall k: nat :: !MatchAt(b, k, target))
  {
    IndexFoldFromIsFirst(b, target, 0);
  }

  /** bytes.IndexByte: the first place of c, or -1. */
  function IndexByte(b: Bytes, c: byte): (r: int)
    ensures -1 <= r < |b|
    ensures r >= 0 ==> b[r] == c
  {
    if b == [] then -1
    else if b[0] == c then 0
    else
      var r := IndexByte(b[1..], c);
      if r == -1 then -1 else r + 1
  }

  lemma {:induction false} IndexByteIsFirst(b: Bytes, c: byte)
    ensures var r := IndexByte(b, c);
      && (r == -1 <==> c !in b)
      && (r >= 0 ==> c !in b[..r])
  {
    if b != [] && b[0] != c {
      var r := IndexByte(b, c);
      IndexByteIsFirst(b[1..], c);
      if r >= 0 {
        assert b[..r] == [b[0]] + b[1..][..r - 1];
      }
    }
  }

  lemma {:induction false} IndexByteIs(b: Bytes, c: byte, k: nat)
    requires k < |b| && b[k] == c && forall j :: 0 <= j < k ==> b[j] != c
    ensures IndexByte(b, c) == k
  {
    if k > 0 {
      IndexByteIs(b[1..], c, k - 1);
    }
  }

  /** What a match says about one byte. */
  lemma Spelled(b: Bytes, target: Bytes, j: nat)
    requires MatchAt(b, 0, target) && j < |target|
    ensures Lower(b[j]) == target[j]
  {
    assert b[0 + j] == b[j];
  }

  /** The search loop of indexFold. */
  method FindFold(b: Bytes, target: Bytes) returns (r: int)
    ensures r == IndexFold(b, target)
  {
    if |target| == 0 {
      return 0;
    }
    var n := |b| - |target|;
    var i := 0;
    while i <= n
      invariant 0 <= i <= |b|
      invariant IndexFold(b, target) == IndexFoldFrom(b, target, i)
    {
      var isMatch := true;
      var j := 0;
      while j < |target|
        invariant 0 <= j <= |target|
        invariant isMatch && forall k :: 0 <= k < j ==> Lower(b[i + k]) == target[k]
      {
        var c := b[i + j];
        if c >= 'A' as int as byte && c <= 'Z' as int as byte {
          c := c + 32;
        }
        if c != target[j] {
          assert !MatchAt(b, i, target);
          isMatch := false;
          break;
        }
        j := j + 1;
      }
      if isMatch {
        return i;
      }
      i := i + 1;
    }
    return -1;
  }

  // ---- Case does not matter ----

  lemma LowerTwice(c: byte)
    ensures Lower(Lower(c)) == Lower(c)
    ensures Lower(c) == LT <==> c == LT
    ensures Lower(c) == GT <==> c == GT
    ensures Boundary(Lower(c)) <==> Boundary(c)
  {
  }

  lemma MatchIgnoresCase(b: Bytes, i: nat, target: Bytes)
    ensures MatchAt(LowerAll(b), i, target) <==> MatchAt(b, i, target)
  {
    if i + |target| <= |b| {
      forall k | i <= k < i + |target|
        ensures Lower(LowerAll(b)[k]) == Lower(b[k])
      {
        LowerTwice(b[k]);
      }
    }
  }

  lemma TagPrefixIgnoresCase(b: Bytes, prefix: Bytes)
    ensures TagPrefix(LowerAll(b), prefix) <==> TagPrefix(b, prefix)
  {
    MatchIgnoresCase(b, 0, prefix);
    if |b| > |prefix| {
      LowerTwice(b[|prefix|]);
    }
  }

  lemma {:induction false} IndexFoldIgnoresCase(b: Bytes, target: Bytes, i: nat)
    requires i <= |b|
    ensures IndexFoldFrom(LowerAll(b), target, i) == IndexFoldFrom(b, target, i)
    decreases |b| - i
  {
    MatchIgnoresCase(b, i, target);
    if i + |target| <= |b| && !MatchAt(b, i, target) {
      IndexFoldIgnoresCase(b, target, i + 1);
    }
  }

  /** The angle brackets are not letters. */
  lemma {:induction false} IndexByteIgnoresCase(b: Bytes, c: byte)
    requires c == LT || c == GT
    ensures IndexByte(LowerAll(b), c) == IndexByte(b, c)
  {
    if b != [] {
      LowerTwice(b[0]);
      assert LowerAll(b)[1..] == LowerAll(b[1..]);
      IndexByteIgnoresCase(b[1..], c);
    }
  }
}
