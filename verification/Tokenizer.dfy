/**
  The specification of the HTML stripper of stripper/stripper.go: a recursive tokenizer, and what each token becomes.
 */
module Tokenizer {
  import opened Scanner

  const SCRIPT: Bytes := Ascii("<script")
  const END_SCRIPT: Bytes := Ascii("</script>")
  const STYLE: Bytes := Ascii("<style")
  const END_STYLE: Bytes := Ascii("</style>")
  const LINK: Bytes := Ascii("<link")
  const STYLESHEET: Bytes := Ascii("stylesheet")
  const IMG: Bytes := Ascii("<img")
  const BODY: Bytes := Ascii("<body")
  const PLACEHOLDER: Bytes := Ascii("<span>[img]</span>")

  /** A piece of the input. `src` is what it looks like in the input. */
  datatype Token =
    | Text(src: Bytes)          // up to the next '<'
    | Script(src: Bytes)        // a closed script block
    | Style(src: Bytes)         // a closed style block larger than 2 KB
    | SmallStyle(src: Bytes)    // any other closed style block
    | Stylesheet(src: Bytes)    // a link tag that mentions a stylesheet
    | Link(src: Bytes)          // any other link tag
    | Image(src: Bytes)
    | Body(src: Bytes)          // the opening body tag that gets the notice
    | Lone(src: Bytes)          // a '<' that no rule applies to

  predicate Closed(rem: Bytes) { IndexByte(rem, GT) != -1 }

  predicate ScriptRule(rem: Bytes) { TagPrefix(rem, SCRIPT) && IndexFold(rem, END_SCRIPT) != -1 }
  predicate StyleRule(rem: Bytes) { TagPrefix(rem, STYLE) && IndexFold(rem, END_STYLE) != -1 }
  predicate LinkRule(rem: Bytes) { TagPrefix(rem, LINK) && Closed(rem) }
  predicate ImageRule(rem: Bytes) { TagPrefix(rem, IMG) && Closed(rem) }
  predicate BodyRule(rem: Bytes) { TagPrefix(rem, BODY) && Closed(rem) }

  function UpToTagEnd(rem: Bytes): (r: Bytes)
    requires Closed(rem)
    ensures 0 < |r| <= |rem| && r == rem[..|r|]
  {
    rem[..IndexByte(rem, GT) + 1]
  }

  /** The rules at a '<', in the order of the source. */
  function TagAt(rem: Bytes, injected: bool): (t: Token)
    requires rem != [] && rem[0] == LT
    ensures 0 < |t.src| <= |rem| && t.src == rem[..|t.src|]
  {
    if ScriptRule(rem) then Script(rem[..IndexFold(rem, END_SCRIPT) + 9])
    else if StyleRule(rem) then
      var blockLen := IndexFold(rem, END_STYLE) + 8;
      if blockLen > 2048 then Style(rem[..blockLen]) else SmallStyle(rem[..blockLen])
    else if LinkRule(rem) then
      var tag := UpToTagEnd(rem);
      if IndexFold(tag, STYLESHEET) != -1 then Stylesheet(tag) else Link(tag)
    else if ImageRule(rem) then Image(UpToTagEnd(rem))
    else if !injected && BodyRule(rem) then Body(UpToTagEnd(rem))
    else Lone(rem[..1])
  }

  function TokenAt(rem: Bytes, injected: bool): (t: Token)
    requires rem != []
    ensures 0 < |t.src| <= |rem| && t.src == rem[..|t.src|]
  {
    if rem[0] == LT then TagAt(rem, injected)
    else
      var start := IndexByte(rem, LT);
      Text(if start == -1 then rem else rem[..start])
  }

  function Tokens(rem: Bytes, injected: bool): seq<Token>
    decreases |rem|
  {
    if rem == [] then []
    else
      var t := TokenAt(rem, injected);
      [t] + Tokens(rem[|t.src|..], injected || t.Body?)
  }

  /** What a token becomes in the output. */
  function Render(t: Token, notice: Bytes): Bytes
  {
    match t
    case Script(_) => []
    case Style(_) => []
    case Stylesheet(_) => []
    case Image(_) => PLACEHOLDER
    case Body(src) => src + notice
    case _ => t.src
  }

  function RenderAll(ts: seq<Token>, notice: Bytes): Bytes
  {
    if ts == [] then [] else Render(ts[0], notice) + RenderAll(ts[1..], notice)
  }

  function Stripped(input: Bytes, notice: Bytes): Bytes
  {
    RenderAll(Tokens(input, false), notice)
  }

  // ---- A scan in progress ----

  /** At pos with `done` written, the rest of the tokens complete the output. */
  ghost predicate OnTrack(base: Bytes, done: Bytes, input: Bytes, pos: nat, injected: bool, notice: Bytes)
  {
    && pos <= |input|
    && done + RenderAll(Tokens(input[pos..], injected), notice) == base + Stripped(input, notice)
  }

  lemma Begin(base: Bytes, input: Bytes, notice: Bytes)
    ensures OnTrack(base, base, input, 0, false, notice)
  {
    assert input[0..] == input;
  }

  lemma PassToken(base: Bytes, done: Bytes, input: Bytes, pos: nat, injected: bool, notice: Bytes)
    requires OnTrack(base, done, input, pos, injected, notice) && pos < |input|
    ensures var t := TokenAt(input[pos..], injected);
      OnTrack(base, done + Render(t, notice), input, pos + |t.src|, injected || t.Body?, notice)
  {
    hide TokenAt, Stripped;
    var rem := input[pos..];
    var t := TokenAt(rem, injected);
    assert rem[|t.src|..] == input[pos + |t.src|..];
    var rest := RenderAll(Tokens(input[pos + |t.src|..], injected || t.Body?), notice);
    assert done + (Render(t, notice) + rest) == done + Render(t, notice) + rest;
  }

  lemma PassText(base: Bytes, done: Bytes, input: Bytes, pos: nat, injected: bool, notice: Bytes, start: nat)
    requires OnTrack(base, done, input, pos, injected, notice) && start == IndexByte(input[pos..], LT)
    ensures OnTrack(base, done + input[pos..pos + start], input, pos + start, injected, notice)
  {
    hide TagAt, RenderAll, Tokens, Stripped;
    if start == 0 {
      assert done + input[pos..pos] == done;
    } else {
      PassToken(base, done, input, pos, injected, notice);
      assert input[pos..][..start] == input[pos..pos + start];
    }
  }

  lemma PassLastText(base: Bytes, done: Bytes, input: Bytes, pos: nat, injected: bool, notice: Bytes)
    requires OnTrack(base, done, input, pos, injected, notice) && pos < |input|
    requires IndexByte(input[pos..], LT) == -1
    ensures OnTrack(base, done + input[pos..], input, |input|, injected, notice)
  {
    hide TagAt, RenderAll, Tokens, Stripped;
    PassToken(base, done, input, pos, injected, notice);
  }

  lemma Finish(base: Bytes, done: Bytes, input: Bytes, injected: bool, notice: Bytes)
    requires OnTrack(base, done, input, |input|, injected, notice)
    ensures done == base + Stripped(input, notice)
  {
    hide Stripped;
    assert done + [] == done;
  }

  // What the rules say, one at a time.

  lemma AtScript(rem: Bytes, injected: bool)
    requires rem != [] && rem[0] == LT && ScriptRule(rem)
    ensures TokenAt(rem, injected) == Script(rem[..IndexFold(rem, END_SCRIPT) + 9])
  {
  }

  lemma AtStyle(rem: Bytes, injected: bool)
    requires rem != [] && rem[0] == LT && !ScriptRule(rem) && StyleRule(rem)
    ensures var block := rem[..IndexFold(rem, END_STYLE) + 8];
      TokenAt(rem, injected) == if |block| > 2048 then Style(block) else SmallStyle(block)
  {
  }

  lemma AtLink(rem: Bytes, injected: bool)
    requires rem != [] && rem[0] == LT && !ScriptRule(rem) && !StyleRule(rem) && LinkRule(rem)
    ensures var tag := rem[..IndexByte(rem, GT) + 1];
      TokenAt(rem, injected) == if IndexFold(tag, STYLESHEET) != -1 then Stylesheet(tag) else Link(tag)
  {
  }

  lemma AtImage(rem: Bytes, injected: bool)
    requires rem != [] && rem[0] == LT && !ScriptRule(rem) && !StyleRule(rem) && !LinkRule(rem) && ImageRule(rem)
    ensures TokenAt(rem, injected) == Image(rem[..IndexByte(rem, GT) + 1])
  {
  }

  lemma AtBody(rem: Bytes)
    requires rem != [] && rem[0] == LT && !ScriptRule(rem) && !StyleRule(rem) && !LinkRule(rem) && !ImageRule(rem)
    requires BodyRule(rem)
    ensures TokenAt(rem, false) == Body(rem[..IndexByte(rem, GT) + 1])
  {
  }

  lemma AtLone(rem: Bytes, injected: bool)
    requires rem != [] && rem[0] == LT && !ScriptRule(rem) && !StyleRule(rem) && !LinkRule(rem) && !ImageRule(rem)
    requires injected || !BodyRule(rem)
    ensures TokenAt(rem, injected) == Lone([LT])
  {
    assert rem[..1] == [LT];
  }
}
