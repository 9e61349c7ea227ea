/** Which documents stripper/stripper.go leaves as they are, and so when a second pass changes nothing. */
module SecondPass {
  import opened Scanner
  import opened Tokenizer
  import opened StripperTheorems
  import opened StripperWriters
  import opened SurvivingTags

  /** The token is written as it stands. */
  predicate Passes(t: Token) { t.Text? || t.SmallStyle? || t.Link? || t.Lone? }

  predicate NoBody(ts: seq<Token>)
  {
    forall t :: t in ts ==> !t.Body?
  }

  predicate NoneDropped(ts: seq<Token>)
  {
    forall t :: t in ts ==> !Dropped(t)
  }

  predicate AllPass(ts: seq<Token>)
  {
    forall t :: t in ts ==> Passes(t)
  }

  /** A notice in which no rule finds its tag, and which ends its last tag. */
  ghost predicate Inert(notice: Bytes)
  {
    (forall tag: Tag :: Harmless(notice, Name(tag))) && Harmless(notice, BODY)
  }

  // ---- The letter t: every dropped token has one, the placeholder has none ----

  const T: byte := 't' as int as byte

  function Ts(b: Bytes): nat
  {
    if b == [] then 0 else (if Lower(b[0]) == T then 1 else 0) + Ts(b[1..])
  }

  lemma {:induction false} TsJoin(a: Bytes, b: Bytes)
    ensures Ts(a + b) == Ts(a) + Ts(b)
  {
    if a == [] {
      assert a + b == b;
    } else {
      TsJoin(a[1..], b);
      assert (a + b)[1..] == a[1..] + b;
    }
  }

  lemma {:induction false} HasT(b: Bytes, i: nat)
    requires i < |b| && Lower(b[i]) == T
    ensures Ts(b) > 0
  {
    if i > 0 {
      HasT(b[1..], i - 1);
    }
  }

  /** From '<' to the first '>'. */
  predicate IsTag(src: Bytes)
  {
    |src| > 1 && src[0] == LT && src[|src| - 1] == GT && GT !in src[..|src| - 1]
  }

  predicate Proper(t: Token)
  {
    && t.src != []
    && (Dropped(t) ==> Ts(t.src) > 0)
    && (t.Image? ==> IsTag(t.src) && Lower(t.src[1]) as int == 'i' as int)
    && (t.Body? ==> IsTag(t.src) && TagPrefix(t.src, BODY))
  }

  lemma DroppedHasT(rem: Bytes, injected: bool)
    requires rem != [] && Dropped(TokenAt(rem, injected))
    ensures Ts(TokenAt(rem, injected).src) > 0
  {
    var t := TokenAt(rem, injected);
    TokenEnds(rem, injected);
    hide TokenAt, Ascii, IndexFold;
    if t.Script? {
      assert Lower(rem[|t.src| - 9 + 7]) == END_SCRIPT[7] == T;
      HasT(t.src, |t.src| - 2);
    } else if t.Style? {
      assert Lower(rem[|t.src| - 8 + 3]) == END_STYLE[3] == T;
      HasT(t.src, |t.src| - 5);
    } else {
      var k: nat :| MatchAt(t.src, k, STYLESHEET);
      assert Lower(t.src[k + 1]) == STYLESHEET[1] == T;
      HasT(t.src, k + 1);
    }
  }

  lemma TokenIsProper(rem: Bytes, injected: bool)
    requires rem != []
    ensures Proper(TokenAt(rem, injected))
  {
    var t := TokenAt(rem, injected);
    if Dropped(t) {
      DroppedHasT(rem, injected);
    } else if t.Image? || t.Body? {
      TokenEnds(rem, injected);
      RuleAppliesIff(rem, injected);
      var name := if t.Image? then IMG else BODY;
      Spelled(rem, name, 1);
      NamesAreTagNames(ImageTag);
      hide TokenAt, TagPrefix, Ascii, IndexByte;
      assert rem == t.src + rem[|t.src|..];
      TagIsDecided(t.src, rem[|t.src|..], name);
    }
  }

  lemma {:induction false} TokensAreProper(rem: Bytes, injected: bool)
    ensures forall t :: t in Tokens(rem, injected) ==> Proper(t)
    ensures injected ==> NoBody(Tokens(rem, injected))
    decreases |rem|
  {
    hide TokenAt, Proper;
    if rem != [] {
      var t := TokenAt(rem, injected);
      TokenIsProper(rem, injected);
      assert injected ==> !t.Body? by { BodyOnlyOnce(rem); }
      TokensAreProper(rem[|t.src|..], injected || t.Body?);
    }
  }

  lemma BodyOnlyOnce(rem: Bytes)
    requires rem != []
    ensures !TokenAt(rem, true).Body?
  {
  }

  /** Deleting tokens deletes the letter. */
  lemma {:induction false} FewerTs(ts: seq<Token>, notice: Bytes)
    requires NoBody(ts) && forall t :: t in ts ==> Proper(t)
    ensures Ts(RenderAll(ts, notice)) <= Ts(Sources(ts))
    ensures !NoneDropped(ts) ==> Ts(RenderAll(ts, notice)) < Ts(Sources(ts))
  {
    if ts != [] {
      var t, rest := ts[0], ts[1..];
      assert Proper(t) && !t.Body?;
      assert Ts(PLACEHOLDER) == 0 by { NoTInPlaceholder(); }
      hide Ts, Proper, PLACEHOLDER;
      FewerTs(rest, notice);
      TsJoin(Render(t, notice), RenderAll(rest, notice));
      TsJoin(t.src, Sources(rest));
    }
  }

  lemma NoTInPlaceholder()
    ensures Ts(PLACEHOLDER) == 0
  {
    NoT(PLACEHOLDER);
  }

  lemma {:induction false} NoT(b: Bytes)
    requires forall i :: 0 <= i < |b| ==> Lower(b[i]) != T
    ensures Ts(b) == 0
  {
    if b != [] {
      NoT(b[1..]);
    }
  }

  // ---- Comparing a document without body tag and without dropped tokens with its output ----

  lemma Cancel(a: Bytes, b: Bytes, c: Bytes)
    requires a + b == a + c
    ensures b == c
  {
    assert b == (a + b)[|a|..] == (a + c)[|a|..] == c;
  }

  lemma CancelBack(a: Bytes, b: Bytes, c: Bytes)
    requires a + c == b + c
    ensures a == b
  {
    assert |a| == |b|;
    assert a == (a + c)[..|a|] == (b + c)[..|a|] == b;
  }

  lemma BeginsDiffer(a: Bytes, b: Bytes, src: Bytes)
    requires IsTag(src) && Lower(src[1]) as int == 'i' as int
    ensures PLACEHOLDER + a != src + b
  {
    assert (PLACEHOLDER + a)[1] == PLACEHOLDER[1];
    assert (src + b)[1] == src[1];
  }

  /** From the front: the placeholder differs from an image tag in its second byte. */
  lemma {:induction false} SameFromFront(ts: seq<Token>, notice: Bytes, u: Bytes, v: Bytes)
    requires NoBody(ts) && NoneDropped(ts) && forall t :: t in ts ==> Proper(t)
    requires RenderAll(ts, notice) + u == Sources(ts) + v
    ensures AllPass(ts) && u == v
  {
    hide Proper, Render, Dropped;
    if ts == [] {
      assert [] + u == u && [] + v == v;
    } else {
      var t, rest := ts[0], ts[1..];
      assert Proper(t) && !t.Body? && !Dropped(t);
      var out, src := RenderAll(rest, notice), Sources(rest);
      assert Render(t, notice) + out + u == Render(t, notice) + (out + u);
      assert t.src + src + v == t.src + (src + v);
      PeelFirst(out + u, src + v, t, notice);
      SameFromFront(rest, notice, u, v);
    }
  }

  /** An image tag does not end where a placeholder ends. */
  lemma EndsDiffer(a: Bytes, b: Bytes, src: Bytes)
    requires IsTag(src) && Lower(src[1]) as int == 'i' as int
    ensures a + PLACEHOLDER != b + src
  {
    var n := |src|;
    if |a| + 18 == |b| + n {
      if n <= 18 {
        assert (b + src)[|b|] == src[0] && (b + src)[|b| + 1] == src[1];
        assert (a + PLACEHOLDER)[|b|] == PLACEHOLDER[18 - n] && (a + PLACEHOLDER)[|b| + 1] == PLACEHOLDER[19 - n];
      } else {
        assert (a + PLACEHOLDER)[|a| + 5] == PLACEHOLDER[5] == GT;
        assert (b + src)[|a| + 5] == src[n - 13] == src[..n - 1][n - 13];
      }
    }
  }

  lemma {:induction false} LastToken(ts: seq<Token>, notice: Bytes)
    requires ts != []
    ensures var n := |ts| - 1;
      && RenderAll(ts, notice) == RenderAll(ts[..n], notice) + Render(ts[n], notice)
      && Sources(ts) == Sources(ts[..n]) + ts[n].src
  {
    hide Render;
    var n := |ts| - 1;
    if n == 0 {
      assert ts[1..] == [] && ts[..0] == [];
    } else {
      LastToken(ts[1..], notice);
      assert ts[1..][..n - 1] == ts[..n][1..];
    }
  }

  lemma PeelLast(out: Bytes, src: Bytes, t: Token, notice: Bytes)
    requires Proper(t) && !t.Body? && !Dropped(t) && out + Render(t, notice) == src + t.src
    ensures Passes(t) && out == src
  {
    if t.Image? {
      EndsDiffer(out, src, t.src);
      assert false;
    }
    CancelBack(out, src, t.src);
  }

  lemma PeelFirst(out: Bytes, src: Bytes, t: Token, notice: Bytes)
    requires Proper(t) && !t.Body? && !Dropped(t) && Render(t, notice) + out == t.src + src
    ensures Passes(t) && out == src
  {
    if t.Image? {
      BeginsDiffer(out, src, t.src);
      assert false;
    }
    Cancel(t.src, out, src);
  }

  /** From the back: the output cannot be the input with something in front of it. */
  lemma {:induction false} SameFromBack(ts: seq<Token>, notice: Bytes, w: Bytes)
    requires NoBody(ts) && NoneDropped(ts) && forall t :: t in ts ==> Proper(t)
    requires RenderAll(ts, notice) == w + Sources(ts)
    ensures w == []
  {
    hide Proper, Render, Dropped;
    if ts != [] {
      var n := |ts| - 1;
      var t := ts[n];
      assert Proper(t) && !t.Body? && !Dropped(t);
      LastToken(ts, notice);
      var out, src := RenderAll(ts[..n], notice), Sources(ts[..n]);
      assert w + (src + t.src) == w + src + t.src;
      PeelLast(out, w + src, t, notice);
      SameFromBack(ts[..n], notice, w);
    }
  }

  lemma NothingInFront(ts: seq<Token>, notice: Bytes, w: Bytes)
    requires NoBody(ts) && forall t :: t in ts ==> Proper(t)
    requires RenderAll(ts, notice) == w + Sources(ts)
    ensures w == []
  {
    FewerTs(ts, notice);
    TsJoin(w, Sources(ts));
    SameFromBack(ts, notice, w);
  }

  // ---- An inert notice passes ----

  /** The rest of an inert notice. */
  ghost predicate InertRest(b: Bytes)
  {
    && (b != [] ==> b[|b| - 1] == GT)
    && (forall tag: Tag :: !HasTag(b, Name(tag))) && !HasTag(b, BODY)
  }

  lemma InertTail(b: Bytes)
    requires b != [] && InertRest(b)
    ensures InertRest(b[1..])
  {
    hide TagPrefix, Name;
    forall o: nat | o < |b| - 1
      ensures b[1..][o..] == b[1 + o..]
    {
    }
  }

  lemma InertBracket(b: Bytes, rest: Bytes, injected: bool)
    requires b != [] && b[0] == LT && InertRest(b)
    ensures TokenAt(b + rest, injected) == Lone([LT])
  {
    assert b[0..] == b;
    forall tag: Tag
      ensures !TagPrefix(b + rest, Name(tag))
    {
      NamesAreTagNames(tag);
      TagIsDecided(b, rest, Name(tag));
    }
    NamesAreTagNames(ScriptTag);
    TagIsDecided(b, rest, BODY);
    hide TagPrefix, IndexFold, IndexByte, HasTag, Ascii;
    assert !TagPrefix(b + rest, Name(ScriptTag)) && !TagPrefix(b + rest, Name(StyleTag));
    assert !TagPrefix(b + rest, Name(LinkTag)) && !TagPrefix(b + rest, Name(ImageTag));
    AtLone(b + rest, injected);
  }

  lemma {:induction false} InertPasses(b: Bytes, rest: Bytes, injected: bool, notice: Bytes)
    requires InertRest(b)
    ensures RenderAll(Tokens(b + rest, injected), notice) == b + RenderAll(Tokens(rest, injected), notice)
  {
    hide TokenAt, InertRest, Tokens, RenderAll;
    if b == [] {
      assert b + rest == rest;
    } else {
      InertTail(b);
      InertPasses(b[1..], rest, injected, notice);
      var more := b[1..] + rest;
      assert b + rest == [b[0]] + more;
      assert b == [b[0]] + b[1..];
      if b[0] == LT {
        InertBracket(b, rest, injected);
        AfterBracket(more, injected, notice);
      } else {
        TextByte(b[0], more, injected, notice);
      }
    }
  }

  /** What follows the body tag would have to begin with the notice over and over again. */
  lemma {:induction false} NoEndlessNotice(rest: Bytes, notice: Bytes)
    requires Inert(notice)
    ensures rest != notice + RenderAll(Tokens(rest, true), notice)
    decreases |rest|
  {
    hide HasTag, Name, Tokens, RenderAll;
    if rest == notice + RenderAll(Tokens(rest, true), notice) {
      assert Harmless(notice, Name(ScriptTag));
      var more := rest[|notice|..];
      assert rest == notice + more;
      InertPasses(notice, more, true, notice);
      NoEndlessNotice(more, notice);
      assert false;
    }
  }

  // ---- A document with a body tag ----

  /** The tag does not stand in what comes after its own first byte and the notice. */
  lemma NotInside(tag: Bytes, notice: Bytes, after: Bytes)
    requires IsTag(tag) && TagPrefix(tag, BODY) && Harmless(notice, BODY) && |after| < |notice|
    ensures (tag + notice)[|notice| - |after|..] != tag + after
  {
    var o := |notice| - |after|;
    if o < |tag| {
      var i := |tag| - 1 - o;
      assert (tag + notice)[o..][i] == tag[|tag| - 1] == GT;
      assert (tag + after)[i] == tag[..|tag| - 1][i];
    } else {
      assert (tag + notice)[o..] == notice[o - |tag|..];
      NamesAreTagNames(ScriptTag);
      TagIsDecided(tag, after, BODY);
    }
  }

  lemma {:induction false} FirstBody(ts: seq<Token>) returns (k: nat)
    requires !NoBody(ts)
    ensures k < |ts| && ts[k].Body? && NoBody(ts[..k])
  {
    if ts[0].Body? {
      k := 0;
    } else {
      assert ts == [ts[0]] + ts[1..];
      k := FirstBody(ts[1..]);
      assert ts[..k + 1] == [ts[0]] + ts[1..][..k];
      k := k + 1;
    }
  }

  lemma {:induction false} CutAt(ts: seq<Token>, k: nat, notice: Bytes)
    requires k <= |ts|
    ensures Sources(ts) == Sources(ts[..k]) + Sources(ts[k..])
    ensures RenderAll(ts, notice) == RenderAll(ts[..k], notice) + RenderAll(ts[k..], notice)
  {
    hide Render;
    if k == 0 {
      assert ts[..0] == [] && ts[0..] == ts;
    } else {
      var rest := ts[1..];
      CutAt(rest, k - 1, notice);
      assert ts[..k][0] == ts[0] && ts[..k][1..] == rest[..k - 1] && rest[k - 1..] == ts[k..];
      Associates(ts[0].src, Sources(rest[..k - 1]), Sources(ts[k..]));
      Associates(Render(ts[0], notice), RenderAll(rest[..k - 1], notice), RenderAll(ts[k..], notice));
    }
  }

  lemma Associates(a: Bytes, b: Bytes, c: Bytes)
    ensures a + (b + c) == a + b + c
  {
  }

  /** The tokens up to the body tag, and those after it. */
  lemma AtBodyTag(ts: seq<Token>, notice: Bytes) returns (k: nat)
    requires !NoBody(ts)
    ensures k < |ts| && ts[k].Body? && NoBody(ts[..k])
    ensures Sources(ts) == Sources(ts[..k]) + (ts[k].src + Sources(ts[k + 1..]))
    ensures RenderAll(ts, notice) == RenderAll(ts[..k], notice) + (ts[k].src + notice + RenderAll(ts[k + 1..], notice))
  {
    k := FirstBody(ts);
    CutAt(ts, k, notice);
    assert ts[k..][0] == ts[k] && ts[k..][1..] == ts[k + 1..];
  }

  /** If the output were the input, the part after the body tag would begin with the notice. */
  lemma NoticeFollows(front: seq<Token>, tag: Bytes, back: seq<Token>, notice: Bytes)
    requires NoBody(front) && NoBody(back) && IsTag(tag) && TagPrefix(tag, BODY)
    requires forall t :: t in front + back ==> Proper(t)
    requires Harmless(notice, BODY)
    requires RenderAll(front, notice) + (tag + notice + RenderAll(back, notice))
          == Sources(front) + (tag + Sources(back))
    ensures AllPass(front) && Sources(back) == notice + RenderAll(back, notice)
  {
    hide TagPrefix, Harmless, Proper, RenderAll, Sources, NoBody;
    var a, ra, e, re := Sources(front), RenderAll(front, notice), Sources(back), RenderAll(back, notice);
    assert forall t :: t in front ==> t in front + back;
    assert forall t :: t in back ==> t in front + back;
    assert ra + (tag + notice) + re == ra + (tag + notice + re);
    assert a + tag + e == a + (tag + e);
    assert |re| <= |e| by {
      if |re| > |e| {
        var w := re[..|re| - |e|];
        SameSuffix(ra + (tag + notice), re, a + tag, e);
        NothingInFront(back, notice, w);
      }
    }
    var v := e[..|e| - |re|];
    SameSuffix(a + tag, e, ra + (tag + notice), re);
    CancelBack(a + tag + v, ra + (tag + notice), re);
    FrontIsSame(front, tag, v, notice);
  }

  /** Two ways to write a text: the shorter second part ends the longer one. */
  lemma SameSuffix(a: Bytes, long: Bytes, b: Bytes, short: Bytes)
    requires a + long == b + short && |long| >= |short|
    ensures long == long[..|long| - |short|] + short
    ensures a + long[..|long| - |short|] + short == b + short
  {
    var n := |long| - |short|;
    assert long[n..] == (a + long)[|a| + n..] == (b + short)[|b|..] == short;
    assert a + long[..n] + short == a + (long[..n] + short);
  }

  lemma FrontIsSame(front: seq<Token>, tag: Bytes, v: Bytes, notice: Bytes)
    requires NoBody(front) && IsTag(tag) && TagPrefix(tag, BODY)
    requires forall t :: t in front ==> Proper(t)
    requires Harmless(notice, BODY)
    requires Sources(front) + tag + v == RenderAll(front, notice) + (tag + notice)
    ensures AllPass(front) && v == notice
  {
    hide Harmless, Proper, RenderAll, Sources, TagPrefix, IsTag;
    var a, ra := Sources(front), RenderAll(front, notice);
    NoShorter(a, ra, tag, v, notice);
    assert ra + (tag + notice) == ra + tag + notice;
    SameSuffix(a + tag, v, ra + tag, notice);
    var w := v[..|v| - |notice|];
    CancelBack(a + tag + w, ra + tag, notice);
    NothingBetween(front, tag, w, notice);
  }

  lemma NoShorter(a: Bytes, ra: Bytes, tag: Bytes, v: Bytes, notice: Bytes)
    requires IsTag(tag) && TagPrefix(tag, BODY) && Harmless(notice, BODY)
    requires a + tag + v == ra + (tag + notice)
    ensures |v| >= |notice|
  {
    hide Harmless, TagPrefix, IsTag;
    if |v| < |notice| {
      assert (a + tag + v)[|a|..] == tag + v;
      assert (ra + (tag + notice))[|a|..] == (tag + notice)[|notice| - |v|..];
      NotInside(tag, notice, v);
      assert false;
    }
  }

  lemma NothingBetween(front: seq<Token>, tag: Bytes, w: Bytes, notice: Bytes)
    requires NoBody(front) && forall t :: t in front ==> Proper(t)
    requires Sources(front) + tag + w == RenderAll(front, notice) + tag
    ensures AllPass(front) && w == []
  {
    hide Proper, RenderAll, Sources;
    var a, ra := Sources(front), RenderAll(front, notice);
    assert a + tag + w == a + (tag + w);
    FewerTs(front, notice);
    TsJoin(ra, tag);
    TsJoin(a, tag + w);
    TsJoin(tag, w);
    SameFromFront(front, notice, tag, tag + w);
    assert |tag| == |tag + w|;
  }

  lemma BodyTagChanges(input: Bytes, notice: Bytes)
    requires Inert(notice) && !NoBody(Tokens(input, false))
    ensures Stripped(input, notice) != input
  {
    var ts := Tokens(input, false);
    assert Harmless(notice, BODY);
    hide Inert, Harmless, Proper, Tokens, IsTag;
    SourcesMakeInput(input, false);
    TokensAreProper(input, false);
    var k := AtBodyTag(ts, notice);
    var later := TokensFrom(input, false, k + 1);
    var rest := Sources(ts[k + 1..]);
    assert ts[k] in ts[..k + 1];
    TokensAreProper(rest, true);
    if Stripped(input, notice) == input {
      assert Proper(ts[k]);
      assert IsTag(ts[k].src) && TagPrefix(ts[k].src, BODY) by { assert ts[k].Body?; ProperBody(ts[k]); }
      assert forall t :: t in ts[..k] + ts[k + 1..] ==> t in ts;
      NoticeFollows(ts[..k], ts[k].src, ts[k + 1..], notice);
      NoEndlessNotice(rest, notice);
      assert false;
    }
  }

  lemma ProperBody(t: Token)
    requires Proper(t) && t.Body?
    ensures IsTag(t.src) && TagPrefix(t.src, BODY)
  {
  }

  // ---- The theorems ----

  lemma {:induction false} PassedAsItStands(ts: seq<Token>, notice: Bytes)
    requires AllPass(ts)
    ensures RenderAll(ts, notice) == Sources(ts)
  {
    if ts != [] {
      assert Passes(ts[0]);
      PassedAsItStands(ts[1..], notice);
    }
  }

  /**
    Exactly which documents come out as they went in: those in which no rule deletes, replaces or marks anything. A
    deletion here is never made up for by an insertion there, nor by the notice.
   */
  lemma UnchangedIff(input: Bytes, notice: Bytes)
    requires Inert(notice)
    ensures Stripped(input, notice) == input <==> AllPass(Tokens(input, false))
  {
    var ts := Tokens(input, false);
    hide Inert, Proper, Tokens, RenderAll, Sources;
    SourcesMakeInput(input, false);
    if AllPass(ts) {
      PassedAsItStands(ts, notice);
    } else if !NoBody(ts) {
      BodyTagChanges(input, notice);
    } else if Stripped(input, notice) == input {
      TokensAreProper(input, false);
      FewerTs(ts, notice);
      SameFromFront(ts, notice, [], []);
    }
  }

  /**
    Exactly when stripping twice is stripping once: when the output of the first pass has no script block, large style
    block, stylesheet, image or closed body tag left at a token boundary.
   */
  lemma SecondPassIff(input: Bytes, notice: Bytes)
    requires Inert(notice)
    ensures var once := Stripped(input, notice);
      Stripped(once, notice) == once <==> AllPass(Tokens(once, false))
  {
    UnchangedIff(Stripped(input, notice), notice);
  }

  /** The notice of the source is inert. */
  lemma BannerIsInert()
    ensures Inert(NOTICE)
  {
    hide Harmless, Name, NOTICE;
    forall tag: Tag
      ensures Harmless(NOTICE, Name(tag))
    {
      BannerIsHarmless(tag);
    }
    BannerIsHarmless(ScriptTag);
  }
}
