/**
  What stripping does not guarantee, by constructed documents: deleting a block can join its neighbours to a new tag, a
  small style block takes scripts with it, and stripping twice can do more than stripping once.
 */
module StripperLimits {
  import opened Scanner
  import opened Tokenizer
  import opened StripperTheorems
  import opened SurvivingTags

  const BLOCK: Bytes := Ascii("<script></script>")

  /** No rule finds its tag in a name that stops short at another '<'. */
  lemma CutName(name: Bytes, cut: nat, rest: Bytes, other: Bytes)
    requires IsTagName(name) && IsTagName(other) && 0 < cut < |name| && rest != [] && rest[0] == LT
    ensures !TagPrefix(name[..cut] + rest, other)
  {
    var rem := name[..cut] + rest;
    if |other| <= cut {
      assert !Boundary(rem[|other|]);
    } else {
      assert Lower(rem[0 + cut]) != other[cut];
    }
  }

  lemma LoneStart(name: Bytes, cut: nat, rest: Bytes, injected: bool)
    requires IsTagName(name) && 0 < cut < |name| && rest != [] && rest[0] == LT
    ensures TokenAt(name[..cut] + rest, injected) == Lone([LT])
  {
    forall tag: Tag
      ensures IsTagName(Name(tag)) && IsTagName(BODY)
    {
      NamesAreTagNames(tag);
    }
    assert Name(ScriptTag) == SCRIPT && Name(StyleTag) == STYLE && Name(LinkTag) == LINK && Name(ImageTag) == IMG;
    hide TagPrefix, IndexFold, IndexByte, IsTagName, Name, Ascii;
    CutName(name, cut, rest, SCRIPT);
    CutName(name, cut, rest, STYLE);
    CutName(name, cut, rest, LINK);
    CutName(name, cut, rest, IMG);
    CutName(name, cut, rest, BODY);
    AtLone(name[..cut] + rest, injected);
  }

  lemma BlockIsScript(rest: Bytes, injected: bool)
    ensures TokenAt(BLOCK + rest, injected) == Script(BLOCK)
  {
    var rem := BLOCK + rest;
    assert TagPrefix(rem, SCRIPT);
    assert MatchAt(rem, 8, END_SCRIPT);
    forall k: nat | k < 8
      ensures !MatchAt(rem, k, END_SCRIPT)
    {
      assert Lower(rem[k + 1]) != END_SCRIPT[1];
    }
    IndexFoldIsFirst(rem, END_SCRIPT);
    AtScript(rem, injected);
    assert rem[..17] == BLOCK;
  }

  lemma BlockGoes(rest: Bytes, injected: bool, notice: Bytes)
    ensures RenderAll(Tokens(BLOCK + rest, injected), notice) == RenderAll(Tokens(rest, injected), notice)
    ensures BLOCK[0] == LT
  {
    hide TokenAt, Tokens, RenderAll;
    BlockIsScript(rest, injected);
    Unfold(BLOCK + rest, injected, notice);
    assert (BLOCK + rest)[17..] == rest;
  }

  lemma CutParts(name: Bytes, cut: nat, more: Bytes, rest: Bytes)
    requires IsTagName(name) && 0 < cut < |name|
    ensures LT !in name[1..cut] && LT !in name[cut..] + [GT]
    ensures name[..cut] + more == [LT] + (name[1..cut] + more)
    ensures [LT] + (name[1..cut] + (name[cut..] + [GT] + rest)) == name + [GT] + rest
  {
    assert name == [LT] + name[1..cut] + name[cut..];
    assert name[..cut] == [LT] + name[1..cut];
  }

  /**
    The output can contain a tag that the input does not have: whatever follows, a tag name that is cut in two by a
    script block is whole again afterwards.
   */
  lemma SpliceMakesTag(name: Bytes, cut: nat, rest: Bytes, notice: Bytes)
    requires IsTagName(name) && 0 < cut < |name|
    ensures Stripped(name[..cut] + (BLOCK + (name[cut..] + [GT] + rest)), notice)
         == name + [GT] + Stripped(rest, notice)
  {
    hide TokenAt, Tokens, RenderAll, Ascii, IsTagName;
    var tail := name[cut..] + [GT];
    var more := BLOCK + (tail + rest);
    BlockGoes(tail + rest, false, notice);
    LoneStart(name, cut, more, false);
    CutParts(name, cut, more, Stripped(rest, notice));
    AfterBracket(name[1..cut] + more, false, notice);
    TextPasses(name[1..cut], more, false, notice);
    TextPasses(tail, rest, false, notice);
  }

  lemma NothingLeft(notice: Bytes)
    ensures Stripped([], notice) == []
  {
  }

  const AFTER_LT: Bytes := Ascii("/script>")

  lemma NotThisTag(rem: Bytes, name: Bytes)
    requires |rem| > 1 && |name| > 1 && Lower(rem[1]) != name[1]
    ensures !TagPrefix(rem, name)
  {
    assert Lower(rem[0 + 1]) != name[1];
  }

  lemma EndTagIsLone()
    ensures TokenAt(END_SCRIPT, false) == Lone([LT])
    ensures END_SCRIPT == [LT] + AFTER_LT && LT !in AFTER_LT
  {
    hide TagPrefix, IndexFold, IndexByte, MatchAt;
    NotThisTag(END_SCRIPT, SCRIPT);
    NotThisTag(END_SCRIPT, STYLE);
    NotThisTag(END_SCRIPT, LINK);
    NotThisTag(END_SCRIPT, IMG);
    NotThisTag(END_SCRIPT, BODY);
    AtLone(END_SCRIPT, false);
  }

  /** An end tag without a beginning passes. */
  lemma EndTagPasses(notice: Bytes)
    ensures Stripped(END_SCRIPT, notice) == END_SCRIPT
  {
    hide TokenAt, Tokens, RenderAll, Ascii;
    EndTagIsLone();
    AfterBracket(AFTER_LT, false, notice);
    TextPasses(AFTER_LT, [], false, notice);
    assert AFTER_LT + [] == AFTER_LT;
    NothingLeft(notice);
  }

  lemma BlockParts()
    ensures SCRIPT + [GT] + END_SCRIPT == BLOCK && BLOCK + [] == BLOCK && |SCRIPT| == 7
  {
  }

  /**
    Stripping twice is not stripping once: here the first pass makes the script block that the second one deletes.
    SecondPassIff says for every document whether it does.
   */
  lemma NotIdempotent(cut: nat, notice: Bytes)
    requires 0 < cut < 7
    ensures |SCRIPT| == 7
    ensures var once := Stripped(SCRIPT[..cut] + (BLOCK + (SCRIPT[cut..] + [GT] + END_SCRIPT)), notice);
      once == BLOCK && Stripped(once, notice) == []
  {
    NamesAreTagNames(ScriptTag);
    assert Name(ScriptTag) == SCRIPT;
    BlockParts();
    hide TokenAt, Tokens, RenderAll, Ascii, Name;
    SpliceMakesTag(SCRIPT, cut, END_SCRIPT, notice);
    EndTagPasses(notice);
    BlockGoes([], false, notice);
    NothingLeft(notice);
  }

  const STYLE_TAG: Bytes := Ascii("<style>")

  /** A style block that has its first end tag at the end. */
  lemma StyleBlock(inner: Bytes, rest: Bytes)
    requires forall k: nat :: k < |inner| ==> !MatchAt(inner + END_STYLE, k, END_STYLE)
    requires |STYLE_TAG + inner + END_STYLE| <= 2048
    ensures var block := STYLE_TAG + inner + END_STYLE;
      TokenAt(block + rest, false) == SmallStyle(block)
  {
    var block := STYLE_TAG + inner + END_STYLE;
    var rem := block + rest;
    var n := 7 + |inner|;
    assert TagPrefix(rem, STYLE);
    assert MatchAt(rem, n, END_STYLE);
    forall k: nat | k < n
      ensures !MatchAt(rem, k, END_STYLE)
    {
      if k >= 7 {
        EarlierMatch(inner, rest, k - 7);
      } else {
        assert Lower(rem[k + 0]) != END_STYLE[0] || Lower(rem[k + 1]) != END_STYLE[1];
      }
    }
    IndexFoldIsFirst(rem, END_STYLE);
    TagNamesDiffer(rem);
    hide TagPrefix, IndexFold, Ascii, MatchAt;
    AtStyle(rem, false);
    assert rem[..n + 8] == block;
  }

  /** A match that begins in `inner` lies before the end of the end tag. */
  lemma EarlierMatch(inner: Bytes, rest: Bytes, k: nat)
    requires k < |inner| && !MatchAt(inner + END_STYLE, k, END_STYLE)
    ensures !MatchAt(STYLE_TAG + inner + END_STYLE + rest, 7 + k, END_STYLE)
  {
    var rem := STYLE_TAG + inner + END_STYLE + rest;
    var j :| 0 <= j < |END_STYLE| && Lower((inner + END_STYLE)[k + j]) != END_STYLE[j];
    assert rem[7 + k + j] == (inner + END_STYLE)[k + j];
  }

  /**
    A style block of at most 2048 bytes passes as it is, and scripts in it pass with it, closed ones as well: nothing
    has to be deleted for a script to come through.
   */
  lemma SmallStylePasses(inner: Bytes, rest: Bytes, notice: Bytes)
    requires forall k: nat :: k < |inner| ==> !MatchAt(inner + END_STYLE, k, END_STYLE)
    requires |STYLE_TAG + inner + END_STYLE| <= 2048
    ensures var block := STYLE_TAG + inner + END_STYLE;
      Stripped(block + rest, notice) == block + Stripped(rest, notice)
  {
    hide TokenAt, Tokens, RenderAll, Ascii, MatchAt;
    var block := STYLE_TAG + inner + END_STYLE;
    StyleBlock(inner, rest);
    Unfold(block + rest, false, notice);
    assert (block + rest)[|block|..] == rest;
  }
}
