/**
  The rules of stripper/stripper.go spelled out on bytes and string literals, for every document: what is recognised as
  a tag, where it ends, and what is written for it. Together the lemmas on Out determine the output.
 */
module SpelledOut {
  import opened Scanner
  import opened Tokenizer
  import opened StripperTheorems

  /** The bytes of b at i are those of s, where a letter of s may also be a capital in b. */
  predicate Says(b: Bytes, i: nat, s: string)
  {
    && i + |s| <= |b|
    && forall j :: 0 <= j < |s| ==>
         b[i + j] as int == s[j] as int || ('a' <= s[j] <= 'z' && b[i + j] as int == s[j] as int - 32)
  }

  /** A tag of this name begins: after it comes the end, '>', ' ', tab, line feed, carriage return or '/'. */
  predicate Opens(rem: Bytes, s: string)
  {
    Says(rem, 0, s) && (|rem| == |s| || rem[|s|] as int in {62, 32, 9, 10, 13, 47})
  }

  /** s stands at k for the first time. */
  ghost predicate FirstAt(b: Bytes, k: nat, s: string)
  {
    Says(b, k, s) && forall m: nat :: m < k ==> !Says(b, m, s)
  }

  /** No capitals, and bytes only. */
  predicate Plain(s: string)
  {
    forall i :: 0 <= i < |s| ==> s[i] as int < 256 && !('A' <= s[i] <= 'Z')
  }

  lemma MatchSays(b: Bytes, i: nat, s: string)
    requires Plain(s)
    ensures MatchAt(b, i, Ascii(s)) <==> Says(b, i, s)
  {
    hide MatchAt;
    MatchMeans(b, i, Ascii(s));
  }

  lemma PrefixOpens(rem: Bytes, s: string)
    requires Plain(s)
    ensures TagPrefix(rem, Ascii(s)) <==> Opens(rem, s)
  {
    hide Boundary, MatchAt;
    MatchSays(rem, 0, s);
    if |rem| > |s| {
      BoundaryMeans(rem[|s|]);
    }
  }

  lemma BoundaryMeans(c: byte)
    ensures Boundary(c) <==> c as int in {62, 32, 9, 10, 13, 47}
  {
  }

  /** The search finds s exactly if s is there, and then the first place. */
  lemma SearchMeans(b: Bytes, s: string)
    requires Plain(s)
    ensures IndexFold(b, Ascii(s)) == -1 <==> forall k: nat :: !Says(b, k, s)
    ensures IndexFold(b, Ascii(s)) >= 0 ==> FirstAt(b, IndexFold(b, Ascii(s)), s)
  {
    hide IndexFold, MatchAt, Says, Ascii;
    IndexFoldIsFirst(b, Ascii(s));
    forall k: nat
      ensures MatchAt(b, k, Ascii(s)) <==> Says(b, k, s)
    {
      MatchSays(b, k, s);
    }
  }

  lemma OneFirst(b: Bytes, k: nat, m: nat, s: string)
    requires FirstAt(b, k, s) && FirstAt(b, m, s)
    ensures k == m
  {
  }

  lemma LiteralsArePlain()
    ensures Plain("<script") && Plain("</script>") && Plain("<style") && Plain("</style>")
    ensures Plain("<link") && Plain("stylesheet") && Plain("<img") && Plain("<body")
  {
  }

  lemma TagNames(rem: Bytes)
    ensures TagPrefix(rem, SCRIPT) <==> Opens(rem, "<script")
    ensures TagPrefix(rem, STYLE) <==> Opens(rem, "<style")
    ensures TagPrefix(rem, LINK) <==> Opens(rem, "<link")
    ensures TagPrefix(rem, IMG) <==> Opens(rem, "<img")
    ensures TagPrefix(rem, BODY) <==> Opens(rem, "<body")
  {
    hide TagPrefix, Opens, Ascii, Plain;
    LiteralsArePlain();
    PrefixOpens(rem, "<script");
    PrefixOpens(rem, "<style");
    PrefixOpens(rem, "<link");
    PrefixOpens(rem, "<img");
    PrefixOpens(rem, "<body");
  }

  lemma EndTags(rem: Bytes)
    ensures IndexFold(rem, END_SCRIPT) == -1 <==> forall k: nat :: !Says(rem, k, "</script>")
    ensures IndexFold(rem, END_SCRIPT) >= 0 ==> FirstAt(rem, IndexFold(rem, END_SCRIPT), "</script>")
    ensures IndexFold(rem, END_STYLE) == -1 <==> forall k: nat :: !Says(rem, k, "</style>")
    ensures IndexFold(rem, END_STYLE) >= 0 ==> FirstAt(rem, IndexFold(rem, END_STYLE), "</style>")
  {
    hide IndexFold, Says, FirstAt, Ascii, Plain;
    LiteralsArePlain();
    SearchMeans(rem, "</script>");
    SearchMeans(rem, "</style>");
  }

  // ---- Which rule applies ----

  /** Each rule applies exactly if its tag begins here and its end follows. */
  lemma RulesSpelledOut(rem: Bytes, injected: bool)
    requires rem != [] && rem[0] as int == 60
    ensures var t := TokenAt(rem, injected);
      && (t.Script? <==> Opens(rem, "<script") && exists k: nat :: Says(rem, k, "</script>"))
      && (t.Style? || t.SmallStyle? <==> Opens(rem, "<style") && exists k: nat :: Says(rem, k, "</style>"))
      && (t.Stylesheet? || t.Link? <==> Opens(rem, "<link") && 62 in rem)
      && (t.Image? <==> Opens(rem, "<img") && 62 in rem)
      && (t.Body? <==> !injected && Opens(rem, "<body") && 62 in rem)
  {
    assert LT as int == 60 && GT as int == 62;
    hide TagPrefix, IndexFold, IndexByte, Opens, Says, FirstAt, TokenAt, Ascii;
    RuleAppliesIff(rem, injected);
    TagNames(rem);
    EndTags(rem);
    IndexByteIsFirst(rem, GT);
  }

  /** What the bytes c that may follow a name decide: a script begins with them, and with no other byte. */
  lemma ScriptForm(c: byte, rest: Bytes, injected: bool)
    ensures TokenAt(Ascii("<script") + [c] + rest, injected).Script?
       <==> c as int in {62, 32, 9, 10, 13, 47} && exists k: nat :: Says(rest, k, "</script>")
  {
    hide TokenAt, Opens;
    var rem := Ascii("<script") + [c] + rest;
    RulesSpelledOut(rem, injected);
    NameAndByte("<script", c, rest);
    EndAfterName("<script", c, rest, "</script>");
  }

  lemma StyleForm(c: byte, rest: Bytes, injected: bool)
    ensures var t := TokenAt(Ascii("<style") + [c] + rest, injected);
      t.Style? || t.SmallStyle? <==> c as int in {62, 32, 9, 10, 13, 47} && exists k: nat :: Says(rest, k, "</style>")
  {
    hide TokenAt, Opens;
    RulesSpelledOut(Ascii("<style") + [c] + rest, injected);
    NameAndByte("<style", c, rest);
    EndAfterName("<style", c, rest, "</style>");
  }

  /** Likewise the tags that end with the first '>', which may be the byte after the name. */
  lemma TagForms(c: byte, rest: Bytes, injected: bool)
    ensures var t := TokenAt(Ascii("<link") + [c] + rest, injected);
      t.Stylesheet? || t.Link? <==> c as int in {62, 32, 9, 10, 13, 47} && 62 in [c] + rest
    ensures TokenAt(Ascii("<img") + [c] + rest, injected).Image?
       <==> c as int in {62, 32, 9, 10, 13, 47} && 62 in [c] + rest
    ensures TokenAt(Ascii("<body") + [c] + rest, injected).Body?
       <==> !injected && c as int in {62, 32, 9, 10, 13, 47} && 62 in [c] + rest
  {
    hide TokenAt, Opens;
    RulesSpelledOut(Ascii("<link") + [c] + rest, injected);
    RulesSpelledOut(Ascii("<img") + [c] + rest, injected);
    RulesSpelledOut(Ascii("<body") + [c] + rest, injected);
    NameAndByte("<link", c, rest);
    NameAndByte("<img", c, rest);
    NameAndByte("<body", c, rest);
  }

  lemma NameAndByte(s: string, c: byte, rest: Bytes)
    requires Plain(s)
    ensures var rem := Ascii(s) + [c] + rest;
      && (Opens(rem, s) <==> c as int in {62, 32, 9, 10, 13, 47})
      && (62 !in Ascii(s) ==> (62 in rem <==> 62 in [c] + rest))
  {
    var rem := Ascii(s) + [c] + rest;
    assert rem == Ascii(s) + ([c] + rest);
    assert rem[|s|] == c;
    forall j | 0 <= j < |s|
      ensures rem[0 + j] as int == s[j] as int
    {
      assert rem[j] == Ascii(s)[j];
    }
  }

  lemma SaysLater(b: Bytes, n: nat, k: nat, s: string)
    requires n <= |b|
    ensures Says(b, n + k, s) <==> Says(b[n..], k, s)
  {
    if n + k + |s| <= |b| {
      forall m | 0 <= m < |b| - n
        ensures b[n..][m] == b[n + m]
      {
      }
    }
  }

  /** An end tag is not in the name, nor in the byte after it unless that is a '<'. */
  lemma EndAfterName(s: string, c: byte, rest: Bytes, end: string)
    requires Plain(s) && |s| > 1 && s[1] != '/' && |end| > 1 && end[0] == '<' && end[1] == '/'
    requires forall j :: 0 < j < |s| ==> s[j] != '<'
    ensures c as int != 60 ==>
      ((exists k: nat :: Says(Ascii(s) + [c] + rest, k, end)) <==> exists k: nat :: Says(rest, k, end))
  {
    var rem := Ascii(s) + [c] + rest;
    var n := |s| + 1;
    assert rem[n..] == rest;
    if c as int != 60 {
      forall k: nat | Says(rem, k, end)
        ensures k >= n
      {
        assert rem[k + 0] as int == 60 && rem[k + 1] as int == '/' as int;
      }
      forall k: nat
        ensures Says(rem, n + k, end) <==> Says(rest, k, end)
      {
        SaysLater(rem, n, k, end);
      }
      if exists k: nat :: Says(rem, k, end) {
        var k: nat :| Says(rem, k, end);
        assert Says(rem, n + (k - n), end);
        assert Says(rest, k - n, end);
      }
    }
  }

  // ---- What is written ----

  /** The output for the rest of a document, where the notice may have been injected already. */
  function Out(rem: Bytes, injected: bool, notice: Bytes): Bytes
  {
    RenderAll(Tokens(rem, injected), notice)
  }

  lemma OutIsStripped(input: Bytes, notice: Bytes)
    ensures Out(input, false, notice) == Stripped(input, notice)
    ensures Out([], true, notice) == []
  {
  }

  lemma AtBracket(rem: Bytes, s: string)
    requires Opens(rem, s) && s != "" && s[0] == '<'
    ensures rem != [] && rem[0] == LT
  {
    assert rem[0 + 0] as int == s[0] as int;
  }

  lemma FirstIs(rem: Bytes, k: nat, s: string)
    requires FirstAt(rem, k, s)
    ensures Says(rem, k, s) && k + |s| <= |rem|
  {
  }

  lemma OnlyOneOpens(rem: Bytes)
    ensures Opens(rem, "<style") ==> !Opens(rem, "<script")
    ensures Opens(rem, "<link") ==> !Opens(rem, "<script") && !Opens(rem, "<style")
    ensures Opens(rem, "<img") ==> !Opens(rem, "<script") && !Opens(rem, "<style") && !Opens(rem, "<link")
    ensures Opens(rem, "<body") ==> !Opens(rem, "<script") && !Opens(rem, "<style") && !Opens(rem, "<link")
                                    && !Opens(rem, "<img")
  {
    hide TagPrefix, Opens, Ascii;
    TagNames(rem);
    TagNamesDiffer(rem);
  }

  /** A script block is dropped up to its first end tag. */
  lemma ScriptGoes(rem: Bytes, k: nat, injected: bool, notice: Bytes)
    requires Opens(rem, "<script") && FirstAt(rem, k, "</script>")
    ensures k + 9 <= |rem| && Out(rem, injected, notice) == Out(rem[k + 9..], injected, notice)
  {
    hide Tokens, RenderAll, TokenAt, TagPrefix, IndexFold, FirstAt, Opens, Ascii;
    AtBracket(rem, "<script");
    TagNames(rem);
    EndTags(rem);
    FirstIs(rem, k, "</script>");
    OneFirst(rem, k, IndexFold(rem, END_SCRIPT), "</script>");
    AtScript(rem, injected);
    Unfold(rem, injected, notice);
  }

  /** A style block is dropped up to its first end tag if it has more than 2048 bytes, else kept. */
  lemma StyleGoesIfLarge(rem: Bytes, k: nat, injected: bool, notice: Bytes)
    requires Opens(rem, "<style") && FirstAt(rem, k, "</style>")
    ensures k + 8 <= |rem|
    ensures Out(rem, injected, notice)
         == (if k + 8 > 2048 then [] else rem[..k + 8]) + Out(rem[k + 8..], injected, notice)
  {
    hide Tokens, RenderAll, TokenAt, TagPrefix, IndexFold, FirstAt, Opens, Ascii;
    AtBracket(rem, "<style");
    OnlyOneOpens(rem);
    TagNames(rem);
    EndTags(rem);
    FirstIs(rem, k, "</style>");
    OneFirst(rem, k, IndexFold(rem, END_STYLE), "</style>");
    AtStyle(rem, injected);
    Unfold(rem, injected, notice);
  }

  lemma FirstGreater(rem: Bytes, k: nat)
    requires k < |rem| && rem[k] as int == 62 && 62 !in rem[..k]
    ensures IndexByte(rem, GT) == k
  {
    forall j | 0 <= j < k
      ensures rem[j] != GT
    {
      assert rem[j] in rem[..k];
    }
    IndexByteIs(rem, GT, k);
  }

  lemma Mention(tag: Bytes)
    ensures IndexFold(tag, STYLESHEET) == -1 <==> forall m: nat :: !Says(tag, m, "stylesheet")
  {
    hide IndexFold, Says, FirstAt, Ascii, Plain;
    LiteralsArePlain();
    SearchMeans(tag, "stylesheet");
  }

  /** A link tag is dropped up to the first '>' if it mentions a stylesheet, else kept. */
  lemma LinkGoesIfStylesheet(rem: Bytes, k: nat, injected: bool, notice: Bytes)
    requires Opens(rem, "<link") && k < |rem| && rem[k] as int == 62 && 62 !in rem[..k]
    ensures var tag := rem[..k + 1];
      Out(rem, injected, notice)
      == (if exists m: nat :: Says(tag, m, "stylesheet") then [] else tag) + Out(rem[k + 1..], injected, notice)
  {
    hide Tokens, RenderAll, TokenAt, TagPrefix, IndexFold, IndexByte, Says, Opens, Ascii;
    AtBracket(rem, "<link");
    OnlyOneOpens(rem);
    TagNames(rem);
    FirstGreater(rem, k);
    Mention(rem[..k + 1]);
    AtLink(rem, injected);
    Unfold(rem, injected, notice);
  }

  /** An image tag becomes a placeholder. */
  lemma ImageIsReplaced(rem: Bytes, k: nat, injected: bool, notice: Bytes)
    requires Opens(rem, "<img") && k < |rem| && rem[k] as int == 62 && 62 !in rem[..k]
    ensures Out(rem, injected, notice) == Ascii("<span>[img]</span>") + Out(rem[k + 1..], injected, notice)
  {
    hide Tokens, RenderAll, TokenAt, TagPrefix, IndexFold, IndexByte, Opens, Ascii;
    AtBracket(rem, "<img");
    OnlyOneOpens(rem);
    TagNames(rem);
    FirstGreater(rem, k);
    AtImage(rem, injected);
    Unfold(rem, injected, notice);
  }

  /** The notice comes after the first body tag, and after no other. */
  lemma NoticeFollowsBody(rem: Bytes, k: nat, notice: Bytes)
    requires Opens(rem, "<body") && k < |rem| && rem[k] as int == 62 && 62 !in rem[..k]
    ensures Out(rem, false, notice) == rem[..k + 1] + notice + Out(rem[k + 1..], true, notice)
    ensures Out(rem, true, notice) == [60] + Out(rem[1..], true, notice)
  {
    assert LT == 60;
    hide Tokens, RenderAll, TokenAt, TagPrefix, IndexFold, IndexByte, Opens, Ascii;
    AtBracket(rem, "<body");
    OnlyOneOpens(rem);
    TagNames(rem);
    FirstGreater(rem, k);
    AtBody(rem);
    Unfold(rem, false, notice);
    AtLone(rem, true);
    Unfold(rem, true, notice);
  }

  /** Every other byte is written as it is: all text, and a '<' at which no rule applies. */
  lemma OthersPass(rem: Bytes, injected: bool, notice: Bytes)
    requires rem != []
    requires rem[0] as int == 60 ==>
      && !(Opens(rem, "<script") && exists k: nat :: Says(rem, k, "</script>"))
      && !(Opens(rem, "<style") && exists k: nat :: Says(rem, k, "</style>"))
      && !((Opens(rem, "<link") || Opens(rem, "<img") || (!injected && Opens(rem, "<body"))) && 62 in rem)
    ensures Out(rem, injected, notice) == [rem[0]] + Out(rem[1..], injected, notice)
  {
    assert rem == [rem[0]] + rem[1..];
    assert LT == 60;
    hide Tokens, RenderAll, TokenAt, Opens, Says;
    if rem[0] == LT {
      RulesSpelledOut(rem, injected);
      OtherIsLone(rem, injected);
      Unfold(rem, injected, notice);
    } else {
      TextByte(rem[0], rem[1..], injected, notice);
    }
  }

  lemma OtherIsLone(rem: Bytes, injected: bool)
    requires rem != [] && rem[0] == LT
    requires var t := TokenAt(rem, injected);
      !t.Script? && !t.Style? && !t.SmallStyle? && !t.Link? && !t.Stylesheet? && !t.Image? && !t.Body?
    ensures TokenAt(rem, injected) == Lone([LT])
  {
    hide TagPrefix, IndexFold, IndexByte;
    TokenEnds(rem, injected);
  }

  // ---- Case ----

  /** The documents differ in the case of letters at most. */
  predicate OnlyCaseDiffers(a: Bytes, b: Bytes)
  {
    && |a| == |b|
    && forall i :: 0 <= i < |a| ==>
         || a[i] == b[i]
         || (65 <= a[i] <= 90 && b[i] == a[i] + 32)
         || (65 <= b[i] <= 90 && a[i] == b[i] + 32)
  }

  lemma SameLowered(a: Bytes, b: Bytes)
    ensures OnlyCaseDiffers(a, b) <==> LowerAll(a) == LowerAll(b)
  {
    if LowerAll(a) == LowerAll(b) {
      forall i | 0 <= i < |a|
        ensures Lower(a[i]) == Lower(b[i])
      {
        assert LowerAll(a)[i] == LowerAll(b)[i];
      }
    }
  }

  /** Documents that differ in case at most have outputs that differ in case at most. */
  lemma CaseDecidesNothing(a: Bytes, b: Bytes, notice: Bytes)
    requires OnlyCaseDiffers(a, b)
    ensures OnlyCaseDiffers(Stripped(a, notice), Stripped(b, notice))
  {
    hide OnlyCaseDiffers, LowerAll, Stripped;
    SameLowered(a, b);
    StrippingIgnoresCase(a, notice);
    StrippingIgnoresCase(b, notice);
    SameLowered(Stripped(a, notice), Stripped(b, notice));
  }
}
