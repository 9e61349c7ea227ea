/** What stripping does to a document, for every document. */
module StripperTheorems {
  import opened Scanner
  import opened Tokenizer

  // ---- Nothing of the input is overlooked ----

  function Sources(ts: seq<Token>): Bytes
  {
    if ts == [] then [] else ts[0].src + Sources(ts[1..])
  }

  /** The pieces put together are the input. */
  lemma {:induction false} SourcesMakeInput(rem: Bytes, injected: bool)
    ensures Sources(Tokens(rem, injected)) == rem
    decreases |rem|
  {
    hide TokenAt;
    if rem != [] {
      var t := TokenAt(rem, injected);
      var rest := rem[|t.src|..];
      SourcesMakeInput(rest, injected || t.Body?);
      assert rem == t.src + rest;
    }
  }

  // ---- Which rule applies ----

  /** The tag names exclude each other, so that the order of the rules does not matter. */
  lemma TagNamesDiffer(rem: Bytes)
    ensures TagPrefix(rem, SCRIPT) ==> !TagPrefix(rem, STYLE) && !TagPrefix(rem, LINK) && !TagPrefix(rem, IMG)
    ensures TagPrefix(rem, SCRIPT) || TagPrefix(rem, STYLE) || TagPrefix(rem, LINK) || TagPrefix(rem, IMG)
      ==> !TagPrefix(rem, BODY)
    ensures TagPrefix(rem, STYLE) ==> !TagPrefix(rem, LINK) && !TagPrefix(rem, IMG)
    ensures TagPrefix(rem, LINK) ==> !TagPrefix(rem, IMG)
  {
    var second := if |rem| > 1 then Lower(rem[1]) else 0;
    var third := if |rem| > 2 then Lower(rem[2]) else 0;
    if TagPrefix(rem, SCRIPT) {
      Spelled(rem, SCRIPT, 1);
      Spelled(rem, SCRIPT, 2);
      assert second as int == 's' as int && third as int == 'c' as int;
    }
    if TagPrefix(rem, STYLE) {
      Spelled(rem, STYLE, 1);
      Spelled(rem, STYLE, 2);
      assert second as int == 's' as int && third as int == 't' as int;
    }
    if TagPrefix(rem, LINK) {
      Spelled(rem, LINK, 1);
      assert second as int == 'l' as int;
    }
    if TagPrefix(rem, IMG) {
      Spelled(rem, IMG, 1);
      assert second as int == 'i' as int;
    }
    if TagPrefix(rem, BODY) {
      Spelled(rem, BODY, 1);
      assert second as int == 'b' as int;
    }
  }

  /**
    Each rule applies at a '<' exactly when its own tag and its own end are there, whatever the other rules say. A '<'
    is passed through alone exactly when no rule applies, for instance at a block or tag that is never closed.
   */
  lemma RuleAppliesIff(rem: Bytes, injected: bool)
    requires rem != [] && rem[0] == LT
    ensures var t := TokenAt(rem, injected);
      && (t.Script? <==> ScriptRule(rem))
      && (t.Style? || t.SmallStyle? <==> StyleRule(rem))
      && (t.Stylesheet? || t.Link? <==> LinkRule(rem))
      && (t.Image? <==> ImageRule(rem))
      && (t.Body? <==> !injected && BodyRule(rem))
      && (t.Lone? <==> !ScriptRule(rem) && !StyleRule(rem) && !LinkRule(rem) && !ImageRule(rem)
                       && (injected || !BodyRule(rem)))
  {
    hide TagPrefix, IndexFold, IndexByte, Ascii;
    TagNamesDiffer(rem);
  }

  /** The first n bytes of rem end with target, which does not occur earlier. */
  ghost predicate EndsAtFirst(rem: Bytes, n: nat, target: Bytes)
  {
    && |target| <= n <= |rem| && MatchAt(rem, n - |target|, target)
    && forall k: nat :: k < n - |target| ==> !MatchAt(rem, k, target)
  }

  /**
    Where each token ends, and what decides between dropping and keeping it: a block at its first end tag, a tag at
    its first '>', a text before the next '<'. A style block is dropped iff it has more than 2048 bytes, a link iff
    its tag mentions a stylesheet.
   */
  lemma TokenEnds(rem: Bytes, injected: bool)
    requires rem != []
    ensures var t := TokenAt(rem, injected);
      var n := |t.src|;
      && (t.Text? <==> rem[0] != LT)
      && (t.Text? ==> LT !in t.src && (n < |rem| ==> rem[n] == LT))
      && (t.Script? ==> EndsAtFirst(rem, n, END_SCRIPT))
      && (t.Style? || t.SmallStyle? ==> EndsAtFirst(rem, n, END_STYLE) && (t.Style? <==> n > 2048))
      && (t.Stylesheet? || t.Link? || t.Image? || t.Body? ==> t.src[n - 1] == GT && GT !in t.src[..n - 1])
      && (t.Stylesheet? || t.Link? ==> (t.Stylesheet? <==> exists k: nat :: MatchAt(t.src, k, STYLESHEET)))
      && (t.Lone? ==> t.src == [LT])
  {
    hide TagPrefix, IndexFold, IndexByte, Ascii, MatchAt;
    IndexFoldIsFirst(rem, END_SCRIPT);
    IndexFoldIsFirst(rem, END_STYLE);
    IndexFoldIsFirst(TokenAt(rem, injected).src, STYLESHEET);
    IndexByteIsFirst(rem, LT);
    IndexByteIsFirst(rem, GT);
  }

  // ---- Text passes ----

  /** A byte in front of a text belongs to it. */
  lemma LongerText(c: byte, rest: Bytes, injected: bool)
    requires c != LT
    ensures TokenAt([c] + rest, injected) ==
      if rest == [] || rest[0] == LT then Text([c]) else Text([c] + TokenAt(rest, injected).src)
    ensures rest != [] && rest[0] != LT ==> TokenAt(rest, injected).Text?
  {
    hide TagAt;
    var rem := [c] + rest;
    assert rem[1..] == rest;
    if rest != [] && rest[0] == LT {
      IndexByteIs(rem, LT, 1);
    }
  }

  lemma Unfold(rem: Bytes, injected: bool, notice: Bytes)
    requires rem != []
    ensures var t := TokenAt(rem, injected);
      RenderAll(Tokens(rem, injected), notice)
      == Render(t, notice) + RenderAll(Tokens(rem[|t.src|..], injected || t.Body?), notice)
  {
    hide TokenAt, Render;
  }

  lemma TextByte(c: byte, rest: Bytes, injected: bool, notice: Bytes)
    requires c != LT
    ensures RenderAll(Tokens([c] + rest, injected), notice) == [c] + RenderAll(Tokens(rest, injected), notice)
  {
    hide TokenAt, Tokens, RenderAll;
    LongerText(c, rest, injected);
    Unfold([c] + rest, injected, notice);
    if rest == [] || rest[0] == LT {
      assert ([c] + rest)[1..] == rest;
    } else {
      Unfold(rest, injected, notice);
      var u := TokenAt(rest, injected).src;
      assert ([c] + rest)[|u| + 1..] == rest[|u|..];
    }
  }

  lemma {:induction false} TextPasses(text: Bytes, rest: Bytes, injected: bool, notice: Bytes)
    requires LT !in text
    ensures RenderAll(Tokens(text + rest, injected), notice) == text + RenderAll(Tokens(rest, injected), notice)
  {
    hide Tokens, RenderAll;
    if text == [] {
      assert text + rest == rest;
    } else {
      TextPasses(text[1..], rest, injected, notice);
      TextByte(text[0], text[1..] + rest, injected, notice);
      assert text + rest == [text[0]] + (text[1..] + rest);
      assert text == [text[0]] + text[1..];
    }
  }

  lemma AfterBracket(rest: Bytes, injected: bool, notice: Bytes)
    requires TokenAt([LT] + rest, injected) == Lone([LT])
    ensures RenderAll(Tokens([LT] + rest, injected), notice) == [LT] + RenderAll(Tokens(rest, injected), notice)
  {
    hide TokenAt;
    assert ([LT] + rest)[1..] == rest;
  }

  // ---- Only insertions are new ----

  /** What the output has of a token's own bytes. */
  function Kept(t: Token): Bytes
  {
    if t.Script? || t.Style? || t.Stylesheet? || t.Image? then [] else t.src
  }

  /** What the output has besides. */
  function Inserted(t: Token, notice: Bytes): Bytes
  {
    if t.Image? then PLACEHOLDER else if t.Body? then notice else []
  }

  lemma RenderSplits(t: Token, notice: Bytes)
    ensures Render(t, notice) == Kept(t) + Inserted(t, notice)
  {
  }

  function KeptAll(ts: seq<Token>): seq<Bytes>
  {
    if ts == [] then [] else [Kept(ts[0])] + KeptAll(ts[1..])
  }

  function InsertedAll(ts: seq<Token>, notice: Bytes): seq<Bytes>
  {
    if ts == [] then [] else [Inserted(ts[0], notice)] + InsertedAll(ts[1..], notice)
  }

  function Joined(pieces: seq<Bytes>): Bytes
  {
    if pieces == [] then [] else pieces[0] + Joined(pieces[1..])
  }

  /** Each kept piece followed by what is inserted after it. */
  function Woven(kept: seq<Bytes>, inserted: seq<Bytes>): Bytes
    requires |kept| == |inserted|
  {
    if kept == [] then [] else kept[0] + inserted[0] + Woven(kept[1..], inserted[1..])
  }

  /** a arises from b by deletions. */
  ghost predicate Subsequence(a: Bytes, b: Bytes)
  {
    a == [] || (b != [] && ((a[0] == b[0] && Subsequence(a[1..], b[1..])) || Subsequence(a, b[1..])))
  }

  lemma {:induction false} SubsequenceAfter(a: Bytes, skipped: Bytes, b: Bytes)
    requires Subsequence(a, b)
    ensures Subsequence(a, skipped + b)
  {
    if skipped == [] {
      assert skipped + b == b;
    } else {
      SubsequenceAfter(a, skipped[1..], b);
      assert (skipped + b)[1..] == skipped[1..] + b;
    }
  }

  lemma {:induction false} SubsequenceShared(shared: Bytes, a: Bytes, b: Bytes)
    requires Subsequence(a, b)
    ensures Subsequence(shared + a, shared + b)
  {
    if shared == [] {
      assert shared + a == a && shared + b == b;
    } else {
      SubsequenceShared(shared[1..], a, b);
      assert (shared + a)[1..] == shared[1..] + a && (shared + b)[1..] == shared[1..] + b;
    }
  }

  lemma {:induction false} OutputIsWoven(ts: seq<Token>, notice: Bytes)
    ensures |KeptAll(ts)| == |InsertedAll(ts, notice)| == |ts|
    ensures RenderAll(ts, notice) == Woven(KeptAll(ts), InsertedAll(ts, notice))
    ensures forall p :: p in InsertedAll(ts, notice) ==> p == [] || p == PLACEHOLDER || p == notice
  {
    hide Render, Kept;
    if ts != [] {
      OutputIsWoven(ts[1..], notice);
      RenderSplits(ts[0], notice);
    }
  }

  lemma {:induction false} KeptIsSubsequence(rem: Bytes, injected: bool)
    ensures Subsequence(Joined(KeptAll(Tokens(rem, injected))), rem)
    decreases |rem|
  {
    if rem != [] {
      var t := TokenAt(rem, injected);
      var rest := rem[|t.src|..];
      KeptIsSubsequence(rest, injected || t.Body?);
      var kept := Joined(KeptAll(Tokens(rest, injected || t.Body?)));
      assert rem == t.src + rest;
      if Kept(t) == [] {
        SubsequenceAfter(kept, t.src, rest);
        assert Kept(t) + kept == kept;
      } else {
        SubsequenceShared(t.src, kept, rest);
      }
    }
  }

  /**
    The output is some pieces of the input, in order, with nothing between them but the notice and the image
    placeholders: without these insertions it arises from the input by deletions alone.
   */
  lemma OnlyDeletions(input: Bytes, notice: Bytes) returns (kept: seq<Bytes>, inserted: seq<Bytes>)
    ensures var ts := Tokens(input, false);
      kept == KeptAll(ts) && inserted == InsertedAll(ts, notice) && |kept| == |inserted| == |ts|
    ensures Stripped(input, notice) == Woven(kept, inserted)
    ensures Subsequence(Joined(kept), input)
    ensures forall p :: p in inserted ==> p == [] || p == PLACEHOLDER || p == notice
  {
    var ts := Tokens(input, false);
    kept, inserted := KeptAll(ts), InsertedAll(ts, notice);
    OutputIsWoven(ts, notice);
    KeptIsSubsequence(input, false);
  }

  // ---- Size ----

  function Bodies(ts: seq<Token>): nat
  {
    if ts == [] then 0 else (if ts[0].Body? then 1 else 0) + Bodies(ts[1..])
  }

  /** An image tag has at least the five bytes of "<img>". */
  lemma ImageIsLong(rem: Bytes, injected: bool)
    requires rem != [] && TokenAt(rem, injected).Image?
    ensures |TokenAt(rem, injected).src| >= 5
  {
    Spelled(rem, IMG, 0);
    Spelled(rem, IMG, 1);
    Spelled(rem, IMG, 2);
    Spelled(rem, IMG, 3);
  }

  lemma {:induction false} OutputSize(rem: Bytes, injected: bool, notice: Bytes)
    ensures 5 * |RenderAll(Tokens(rem, injected), notice)| <= 18 * |rem| + if injected then 0 else 5 * |notice|
    decreases |rem|
  {
    if rem != [] {
      var t := TokenAt(rem, injected);
      OutputSize(rem[|t.src|..], injected || t.Body?, notice);
      TokenSize(rem, injected, notice);
      hide TokenAt, Render;
    }
  }

  lemma TokenSize(rem: Bytes, injected: bool, notice: Bytes)
    requires rem != []
    ensures var t := TokenAt(rem, injected);
      5 * |Render(t, notice)| <= 18 * |t.src| + if t.Body? then 5 * |notice| else 0
  {
    if TokenAt(rem, injected).Image? {
      ImageIsLong(rem, injected);
    }
  }

  lemma {:induction false} NoticeOnce(rem: Bytes, injected: bool)
    ensures Bodies(Tokens(rem, injected)) <= if injected then 0 else 1
    decreases |rem|
  {
    if rem != [] {
      var t := TokenAt(rem, injected);
      NoticeOnce(rem[|t.src|..], injected || t.Body?);
    }
  }

  /** For every document: at most one notice, and at most 18 bytes of output for every 5 bytes of input beside it. */
  lemma SizeBound(input: Bytes, notice: Bytes)
    ensures Bodies(Tokens(input, false)) <= 1
    ensures 5 * |Stripped(input, notice)| <= 18 * |input| + 5 * |notice|
  {
    OutputSize(input, false, notice);
    NoticeOnce(input, false);
  }

  const IMAGE: Bytes := Ascii("<img>")

  function Images(n: nat): Bytes
  {
    if n == 0 then [] else IMAGE + Images(n - 1)
  }

  lemma FirstImage(rest: Bytes, injected: bool)
    ensures TokenAt(IMAGE + rest, injected) == Image(IMAGE)
  {
    var rem := IMAGE + rest;
    assert rem[0] == LT && rem[4] == GT;
    assert TagPrefix(rem, IMG);
    IndexByteIs(rem, GT, 4);
    RuleAppliesIff(rem, injected);
    assert rem[..5] == IMAGE;
  }

  /** The factor 18/5 is reached: n image tags of 5 bytes become n placeholders of 18 bytes. */
  lemma {:induction false} SizeBoundIsReached(n: nat, notice: Bytes)
    ensures |Images(n)| == 5 * n && |Stripped(Images(n), notice)| == 18 * n
  {
    hide TokenAt;
    if n > 0 {
      var rest := Images(n - 1);
      SizeBoundIsReached(n - 1, notice);
      FirstImage(rest, false);
      assert (IMAGE + rest)[5..] == rest;
    }
  }

  // ---- The notice ----

  /** How far the first k tokens reach when no notice is ever injected. */
  function Reach(ts: seq<Token>, k: nat): nat
    requires k <= |ts|
  {
    if k == 0 then 0 else |ts[0].src| + Reach(ts[1..], k - 1)
  }

  lemma {:induction false} ReachIsWithin(rem: Bytes, injected: bool, k: nat)
    requires k <= |Tokens(rem, injected)|
    ensures Reach(Tokens(rem, injected), k) <= |rem|
    decreases |rem|
  {
    hide TokenAt;
    if k > 0 {
      var t := TokenAt(rem, injected);
      ReachIsWithin(rem[|t.src|..], injected || t.Body?, k - 1);
    }
  }

  /** A closed body tag starts where the k-th token ends. */
  ghost predicate BodyAfter(input: Bytes, k: nat)
  {
    var ts := Tokens(input, true);
    k <= |ts| && Reach(ts, k) < |input| && input[Reach(ts, k)] == LT && BodyRule(input[Reach(ts, k)..])
  }

  lemma FirstTokenSame(rem: Bytes)
    requires rem != [] && !(rem[0] == LT && BodyRule(rem))
    ensures TokenAt(rem, false) == TokenAt(rem, true) && !TokenAt(rem, false).Body?
  {
  }

  lemma FirstTokenIsBody(rem: Bytes)
    requires rem != [] && rem[0] == LT && BodyRule(rem)
    ensures TokenAt(rem, false).Body?
  {
    hide TagPrefix, IndexFold, IndexByte, Ascii;
    RuleAppliesIff(rem, false);
  }

  /**
    The notice is inserted if and only if a closed body tag is met at a token boundary, which is not so for one inside
    a script, a style block or another tag.
   */
  lemma {:induction false} NoticeIff(input: Bytes)
    ensures Bodies(Tokens(input, false)) == 1 <==> exists k: nat :: BodyAfter(input, k)
    decreases |input|
  {
    hide BodyRule, TokenAt;
    NoticeOnce(input, false);
    if input != [] {
      if input[0] == LT && BodyRule(input) {
        FirstTokenIsBody(input);
        assert input[0..] == input;
        assert BodyAfter(input, 0);
      } else {
        FirstTokenSame(input);
        var t := TokenAt(input, true);
        var rest := input[|t.src|..];
        NoticeIff(rest);
        NoticeOnce(rest, false);
        assert Tokens(input, true) == [t] + Tokens(rest, true);
        assert Tokens(input, true)[1..] == Tokens(rest, true);
        if Bodies(Tokens(rest, false)) == 1 {
          var k: nat :| BodyAfter(rest, k);
          BodyAfterShift(input, k + 1);
        }
        forall k: nat | BodyAfter(input, k)
          ensures k > 0 && BodyAfter(rest, k - 1)
        {
          assert input[0..] == input;
          BodyAfterShift(input, k);
        }
      }
    }
  }

  lemma BodyAfterShift(input: Bytes, k: nat)
    requires input != [] && k > 0
    ensures var t := TokenAt(input, true);
      BodyAfter(input, k) <==> BodyAfter(input[|t.src|..], k - 1)
  {
    hide BodyRule, TokenAt;
    var t := TokenAt(input, true);
    var rest := input[|t.src|..];
    assert Tokens(input, true)[1..] == Tokens(rest, true);
    if k <= |Tokens(input, true)| {
      var r := Reach(Tokens(rest, true), k - 1);
      assert Reach(Tokens(input, true), k) == |t.src| + r;
      ReachIsWithin(rest, true, k - 1);
      assert input[|t.src| + r..] == rest[r..];
    }
  }

  // ---- Case ----

  function LowerToken(t: Token): Token
  {
    var src := LowerAll(t.src);
    match t
    case Text(_) => Text(src)
    case Script(_) => Script(src)
    case Style(_) => Style(src)
    case SmallStyle(_) => SmallStyle(src)
    case Stylesheet(_) => Stylesheet(src)
    case Link(_) => Link(src)
    case Image(_) => Image(src)
    case Body(_) => Body(src)
    case Lone(_) => Lone(src)
  }

  lemma LowerPrefix(b: Bytes, n: nat)
    requires n <= |b|
    ensures LowerAll(b)[..n] == LowerAll(b[..n]) && LowerAll(b)[n..] == LowerAll(b[n..])
  {
  }

  lemma LowerJoins(a: Bytes, b: Bytes)
    ensures LowerAll(a + b) == LowerAll(a) + LowerAll(b)
  {
  }

  lemma LowerAllTwice(b: Bytes)
    ensures LowerAll(LowerAll(b)) == LowerAll(b)
  {
    forall i | 0 <= i < |b|
      ensures Lower(Lower(b[i])) == Lower(b[i])
    {
      LowerTwice(b[i]);
    }
  }

  lemma RulesIgnoreCase(rem: Bytes)
    ensures var low := LowerAll(rem);
      && (ScriptRule(low) <==> ScriptRule(rem)) && (StyleRule(low) <==> StyleRule(rem))
      && (LinkRule(low) <==> LinkRule(rem))
      && (ImageRule(low) <==> ImageRule(rem)) && (BodyRule(low) <==> BodyRule(rem))
      && IndexFold(low, END_SCRIPT) == IndexFold(rem, END_SCRIPT)
      && IndexFold(low, END_STYLE) == IndexFold(rem, END_STYLE)
      && IndexByte(low, GT) == IndexByte(rem, GT) && IndexByte(low, LT) == IndexByte(rem, LT)
  {
    hide TagPrefix, IndexByte, Ascii, LowerAll;
    TagPrefixIgnoresCase(rem, SCRIPT);
    TagPrefixIgnoresCase(rem, STYLE);
    TagPrefixIgnoresCase(rem, LINK);
    TagPrefixIgnoresCase(rem, IMG);
    TagPrefixIgnoresCase(rem, BODY);
    IndexFoldIgnoresCase(rem, END_SCRIPT, 0);
    IndexFoldIgnoresCase(rem, END_STYLE, 0);
    IndexByteIgnoresCase(rem, GT);
    IndexByteIgnoresCase(rem, LT);
  }

  lemma TokenIgnoresCase(rem: Bytes, injected: bool)
    requires rem != []
    ensures TokenAt(LowerAll(rem), injected) == LowerToken(TokenAt(rem, injected))
  {
    hide TagPrefix, IndexFold, IndexByte, Ascii, LowerAll;
    RulesIgnoreCase(rem);
    LowerTwice(rem[0]);
    var t := TokenAt(rem, injected);
    LowerPrefix(rem, |t.src|);
    if rem[0] == LT && LinkRule(rem) {
      TagIgnoresCase(UpToTagEnd(rem));
      LowerPrefix(rem, IndexByte(rem, GT) + 1);
    }
  }

  lemma TagIgnoresCase(tag: Bytes)
    ensures IndexFold(LowerAll(tag), STYLESHEET) == IndexFold(tag, STYLESHEET)
  {
    IndexFoldIgnoresCase(tag, STYLESHEET, 0);
  }

  lemma RenderIgnoresCase(t: Token, notice: Bytes)
    ensures LowerAll(Render(t, notice)) == LowerAll(Render(LowerToken(t), notice))
  {
    hide LowerAll;
    LowerAllTwice(t.src);
    LowerJoins(t.src, notice);
    LowerJoins(LowerAll(t.src), notice);
  }

  lemma {:induction false} CaseIndependent(rem: Bytes, injected: bool, notice: Bytes)
    ensures LowerAll(RenderAll(Tokens(rem, injected), notice))
         == LowerAll(RenderAll(Tokens(LowerAll(rem), injected), notice))
    decreases |rem|
  {
    hide TokenAt, LowerAll, Render;
    if rem != [] {
      var t := TokenAt(rem, injected);
      var rest := rem[|t.src|..];
      var inj := injected || t.Body?;
      TokenIgnoresCase(rem, injected);
      LowerPrefix(rem, |t.src|);
      CaseIndependent(rest, inj, notice);
      RenderIgnoresCase(t, notice);
      LowerJoins(Render(t, notice), RenderAll(Tokens(rest, inj), notice));
      LowerJoins(Render(LowerToken(t), notice), RenderAll(Tokens(LowerAll(rest), inj), notice));
    }
  }

  /** The case of a document decides nothing about what is stripped. */
  lemma StrippingIgnoresCase(input: Bytes, notice: Bytes)
    ensures LowerAll(Stripped(input, notice)) == LowerAll(Stripped(LowerAll(input), notice))
  {
    CaseIndependent(input, false, notice);
  }
}
