/** The scanning loop of stripper/stripper.go, verified against the tokenizer. */
module Stripper {
  import opened Scanner
  import opened Tokenizer

  /** bytes.Buffer, as far as it is written to. */
  class Buffer {
    var data: Bytes

    constructor (data: Bytes)
      ensures this.data == data
    {
      this.data := data;
    }

    method Reset()
      modifies this
      ensures data == []
    {
      data := [];
    }

    method Write(b: Bytes)
      modifies this
      ensures data == old(data) + b
    {
      data := data + b;
    }
  }

  /** The rules at a '<': one turn of the scanning loop, which consumes n bytes. */
  method StripTag(rem: Bytes, bodyInjected: bool, notice: Bytes, out: Buffer) returns (n: nat, injected: bool)
    requires rem != [] && rem[0] == LT
    modifies out
    ensures var t := TokenAt(rem, bodyInjected);
      && out.data == old(out.data) + Render(t, notice)
      && n == |t.src| && injected == (bodyInjected || t.Body?)
  {
    hide TokenAt, IndexFold, IndexByte, TagPrefix, UpToTagEnd, SCRIPT, STYLE, LINK, STYLESHEET, IMG, BODY, PLACEHOLDER;
    injected := bodyInjected;
    assert out.data + [] == out.data;

    var isScript := HasTagPrefix(rem, SCRIPT);
    if isScript {
      var end := FindFold(rem, END_SCRIPT);
      if end != -1 {
        AtScript(rem, bodyInjected);
        n := end + 9;
        return;
      }
    }
    var isStyle := HasTagPrefix(rem, STYLE);
    if isStyle {
      var end := FindFold(rem, END_STYLE);
      if end != -1 {
        AtStyle(rem, bodyInjected);
        var blockLen := end + 8;
        if blockLen > 2048 {
          n := blockLen;
          return;
        }
        out.Write(rem[..blockLen]);
        n := blockLen;
        return;
      }
    }
    var isLink := HasTagPrefix(rem, LINK);
    if isLink {
      var end := IndexByte(rem, GT);
      if end != -1 {
        AtLink(rem, bodyInjected);
        var tag := rem[..end + 1];
        var mention := FindFold(tag, STYLESHEET);
        if mention != -1 {
          n := end + 1;
          return;
        }
        out.Write(tag);
        n := end + 1;
        return;
      }
    }
    var isImg := HasTagPrefix(rem, IMG);
    if isImg {
      var end := IndexByte(rem, GT);
      if end != -1 {
        AtImage(rem, bodyInjected);
        out.Write(PLACEHOLDER);
        n := end + 1;
        return;
      }
    }
    if !bodyInjected {
      var isBody := HasTagPrefix(rem, BODY);
      if isBody {
        var end := IndexByte(rem, GT);
        if end != -1 {
          AtBody(rem);
          out.Write(rem[..end + 1]);
          out.Write(notice);
          assert old(out.data) + (rem[..end + 1] + notice) == out.data;
          n := end + 1;
          injected := true;
          return;
        }
      }
    }
    AtLone(rem, bodyInjected);
    out.Write([LT]);
    n := 1;
  }

  method StripHTML(input: Bytes, notice: Bytes, out: Buffer)
    modifies out
    ensures out.data == old(out.data) + Stripped(input, notice)
  {
    hide OnTrack, Stripped, TokenAt, IndexByte, Render;
    var pos := 0;
    var bodyInjected := false;
    ghost var base := out.data;
    Begin(base, input, notice);

    while pos < |input|
      invariant 0 <= pos <= |input|
      invariant OnTrack(base, out.data, input, pos, bodyInjected, notice)
      decreases |input| - pos
    {
      var start := IndexByte(input[pos..], LT);
      if start == -1 {
        PassLastText(base, out.data, input, pos, bodyInjected, notice);
        out.Write(input[pos..]);
        pos := |input|;
        break;
      }
      PassText(base, out.data, input, pos, bodyInjected, notice, start);
      out.Write(input[pos..pos + start]);
      pos := pos + start;
      var rem := input[pos..];
      PassToken(base, out.data, input, pos, bodyInjected, notice);
      var n, injected := StripTag(rem, bodyInjected, notice, out);
      pos := pos + n;
      bodyInjected := injected;
    }
    Finish(base, out.data, input, bodyInjected, notice);
  }
}
