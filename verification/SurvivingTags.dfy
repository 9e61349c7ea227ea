/**
  When a tag that stripper/stripper.go removes is still in its output. There are exactly three ways: it was never
  closed, it stood inside a piece that is kept as it is, or the deletion of a block has joined its parts.
 */
module SurvivingTags {
  import opened Scanner
  import opened Tokenizer
  import opened StripperTheorems
  import opened StripperWriters

  /** The tags that the first four rules look for. */
  datatype Tag = ScriptTag | StyleTag | LinkTag | ImageTag

  function Name(tag: Tag): Bytes
  {
    match tag
    case ScriptTag => SCRIPT
    case StyleTag => STYLE
    case LinkTag => LINK
    case ImageTag => IMG
  }

  /** The end that the rule of a tag asks for is there. */
  predicate Ends(rem: Bytes, tag: Tag)
  {
    match tag
    case ScriptTag => IndexFold(rem, END_SCRIPT) != -1
    case StyleTag => IndexFold(rem, END_STYLE) != -1
    case LinkTag => Closed(rem)
    case ImageTag => Closed(rem)
  }

  /** A '<' and lower-case letters. */
  predicate IsTagName(name: Bytes)
  {
    && |name| > 1 && name[0] == LT
    && forall j :: 0 < j < |name| ==> 'a' as int as byte <= name[j] <= 'z' as int as byte
  }

  lemma NamesAreTagNames(tag: Tag)
    ensures IsTagName(Name(tag)) && IsTagName(BODY)
  {
  }

  /** Somewhere in b a tag of this name begins, in the sense of hasTagPrefix. */
  ghost predicate HasTag(b: Bytes, name: Bytes)
  {
    exists o: nat :: o < |b| && TagPrefix(b[o..], name)
  }

  predicate Dropped(t: Token) { t.Script? || t.Style? || t.Stylesheet? }

  /** What comes together after a '<' when the tokens ts follow it: their text, up to the next '<' of the output. */
  function ReadsOn(ts: seq<Token>): Bytes
  {
    if ts == [] then []
    else if ts[0].Text? then ts[0].src + ReadsOn(ts[1..])
    else if Dropped(ts[0]) then ReadsOn(ts[1..])
    else [LT]
  }

  /** The piece is kept as it is, and there is a tag of this name in it. */
  ghost predicate KeepsTag(t: Token, name: Bytes)
  {
    (t.SmallStyle? || t.Link? || t.Body?) && HasTag(t.src, name)
  }

  /** The tag without its end. */
  predicate Unclosed(rem: Bytes, tag: Tag)
  {
    TagPrefix(rem, Name(tag)) && !Ends(rem, tag)
  }

  /** A lone '<' before which no such tag stands in the input, but does once the dropped tokens are gone. */
  predicate Spliced(ts: seq<Token>, k: nat, name: Bytes)
    requires k < |ts|
  {
    ts[k].Lone? && !TagPrefix(Sources(ts[k..]), name) && TagPrefix([LT] + ReadsOn(ts[k + 1..]), name)
  }

  /** A notice that closes its last tag and has no tag of this name in it. */
  ghost predicate Harmless(notice: Bytes, name: Bytes)
  {
    notice != [] && notice[|notice| - 1] == GT && !HasTag(notice, name)
  }

  /** What is inserted brings no tag of this name. */
  ghost predicate Suits(notice: Bytes, name: Bytes)
  {
    IsTagName(name) && Harmless(PLACEHOLDER, name) && Harmless(notice, name)
  }

  // ---- Tokens begin and end where tags do ----

  predicate WellFormed(t: Token)
  {
    && t.src != []
    && (t.Text? ==> LT !in t.src)
    && (!t.Text? ==> t.src[0] == LT)
    && (t.SmallStyle? || t.Link? || t.Body? ==> t.src[|t.src| - 1] == GT)
    && (t.Lone? ==> t.src == [LT])
  }

  lemma TokenIsWellFormed(rem: Bytes, injected: bool)
    requires rem != []
    ensures WellFormed(TokenAt(rem, injected))
  {
    var t := TokenAt(rem, injected);
    TokenEnds(rem, injected);
    hide TokenAt, Ascii;
    if t.SmallStyle? {
      var n := |t.src|;
      assert MatchAt(rem, n - 8, END_STYLE);
      assert Lower(rem[n - 8 + 7]) == END_STYLE[7] == GT;
    }
  }

  lemma {:induction false} TokensAreWellFormed(rem: Bytes, injected: bool)
    ensures forall t :: t in Tokens(rem, injected) ==> WellFormed(t)
    decreases |rem|
  {
    hide TokenAt, WellFormed;
    if rem != [] {
      var t := TokenAt(rem, injected);
      TokenIsWellFormed(rem, injected);
      TokensAreWellFormed(rem[|t.src|..], injected || t.Body?);
    }
  }

  /** From every token boundary on, the tokens are those of the rest of the input. */
  lemma {:induction false} TokensFrom(rem: Bytes, injected: bool, k: nat) returns (later: bool)
    requires k <= |Tokens(rem, injected)|
    ensures var ts := Tokens(rem, injected);
      && ts[k..] == Tokens(Sources(ts[k..]), later)
      && (later <==> injected || exists t :: t in ts[..k] && t.Body?)
    decreases |rem|
  {
    hide TokenAt, Sources;
    var ts := Tokens(rem, injected);
    if k == 0 {
      SourcesMakeInput(rem, injected);
      assert ts[0..] == ts;
      later := injected;
    } else {
      var t := TokenAt(rem, injected);
      var rest := rem[|t.src|..];
      assert ts[k..] == Tokens(rest, injected || t.Body?)[k - 1..];
      later := TokensFrom(rest, injected || t.Body?, k - 1);
      assert ts[..k] == [t] + Tokens(rest, injected || t.Body?)[..k - 1];
    }
  }

  // ---- Where a tag of the output can begin ----

  /** No tag name reaches over the end of a tag or over the begin of the next one. */
  lemma TagIsDecided(b: Bytes, more: Bytes, name: Bytes)
    requires b != [] && (b[|b| - 1] == GT || (b[|b| - 1] == LT && |b| > 1)) && IsTagName(name)
    ensures TagPrefix(b + more, name) <==> TagPrefix(b, name)
  {
    var n := |b| - 1;
    if n < |name| {
      if TagPrefix(b + more, name) { Spelled(b + more, name, n); }
      if TagPrefix(b, name) { Spelled(b, name, n); }
    }
  }

  lemma BeginsWithin(b: Bytes, more: Bytes, name: Bytes)
    ensures HasTag(b + more, name) <==> HasTag(more, name) || exists o: nat :: o < |b| && TagPrefix(b[o..] + more, name)
  {
    hide TagPrefix;
    forall o: nat | o < |b + more|
      ensures (b + more)[o..] == if o < |b| then b[o..] + more else more[o - |b|..]
    {
    }
    if HasTag(more, name) {
      var o: nat :| o < |more| && TagPrefix(more[o..], name);
      assert (b + more)[|b| + o..] == more[o..];
    }
    if HasTag(b + more, name) {
      var o: nat :| o < |b + more| && TagPrefix((b + more)[o..], name);
      assert o >= |b| ==> HasTag(more, name) by {
        if o >= |b| {
          assert TagPrefix(more[o - |b|..], name);
        }
      }
    }
    forall o: nat | o < |b| && TagPrefix(b[o..] + more, name)
      ensures HasTag(b + more, name)
    {
      assert (b + more)[o..] == b[o..] + more;
    }
  }

  /** A piece that ends with '>' and what follows it have their tags each for itself. */
  lemma ClosedPiece(b: Bytes, more: Bytes, name: Bytes)
    requires b != [] && b[|b| - 1] == GT && IsTagName(name)
    ensures HasTag(b + more, name) <==> HasTag(b, name) || HasTag(more, name)
  {
    hide TagPrefix, IsTagName;
    BeginsWithin(b, more, name);
    forall o: nat | o < |b|
      ensures TagPrefix(b[o..] + more, name) <==> TagPrefix(b[o..], name)
    {
      TagIsDecided(b[o..], more, name);
    }
  }

  lemma TextPiece(b: Bytes, more: Bytes, name: Bytes)
    requires LT !in b && IsTagName(name)
    ensures HasTag(b + more, name) <==> HasTag(more, name)
  {
    BeginsWithin(b, more, name);
    forall o: nat | o < |b|
      ensures !TagPrefix(b[o..] + more, name)
    {
      assert b[o] in b;
      assert Lower((b[o..] + more)[0 + 0]) != name[0];
    }
  }

  lemma PlaceholderIsHarmless(tag: Tag)
    ensures Harmless(PLACEHOLDER, Name(tag))
  {
    var name := Name(tag);
    forall o: nat | o < |PLACEHOLDER|
      ensures !TagPrefix(PLACEHOLDER[o..], name)
    {
      if TagPrefix(PLACEHOLDER[o..], name) {
        Spelled(PLACEHOLDER[o..], name, 0);
        Spelled(PLACEHOLDER[o..], name, 1);
        Spelled(PLACEHOLDER[o..], name, 2);
      }
    }
  }

  /** One token more in front. */
  lemma OneToken(t: Token, more: Bytes, notice: Bytes, name: Bytes)
    requires WellFormed(t) && Suits(notice, name)
    ensures HasTag(Render(t, notice) + more, name)
       <==> HasTag(more, name) || KeepsTag(t, name) || (t.Lone? && TagPrefix([LT] + more, name))
  {
    hide TagPrefix, HasTag, IsTagName;
    match t
    case Text(src) => TextPiece(src, more, name);
    case Image(_) => ClosedPiece(PLACEHOLDER, more, name);
    case Body(src) =>
      assert src + notice + more == src + (notice + more);
      ClosedPiece(src, notice + more, name);
      ClosedPiece(notice, more, name);
    case Lone(src) =>
      BeginsWithin([LT], more, name);
      assert [LT][0..] == [LT];
    case SmallStyle(src) => ClosedPiece(src, more, name);
    case Link(src) => ClosedPiece(src, more, name);
    case _ => assert [] + more == more;
  }

  lemma StopsAt(front: Bytes, piece: Bytes, more: Bytes, name: Bytes)
    requires front != [] && IsTagName(name) && piece != [] && piece[0] == LT
    ensures TagPrefix(front + (piece + more), name) <==> TagPrefix(front + [LT], name)
  {
    hide TagPrefix, IsTagName;
    assert front + (piece + more) == front + [LT] + (piece[1..] + more);
    TagIsDecided(front + [LT], piece[1..] + more, name);
  }

  /** Whether a tag begins depends only on what is read up to the next '<'. */
  lemma {:induction false} ReadOn(front: Bytes, ts: seq<Token>, notice: Bytes, name: Bytes)
    requires front != [] && IsTagName(name) && forall t :: t in ts ==> WellFormed(t)
    ensures TagPrefix(front + RenderAll(ts, notice), name) <==> TagPrefix(front + ReadsOn(ts), name)
    decreases |ts|
  {
    hide TagPrefix, IsTagName;
    if ts != [] {
      var t, rest := ts[0], ts[1..];
      assert WellFormed(t);
      var more := RenderAll(rest, notice);
      if t.Text? {
        ReadOn(front + t.src, rest, notice, name);
        assert front + (t.src + more) == front + t.src + more;
        assert front + (t.src + ReadsOn(rest)) == front + t.src + ReadsOn(rest);
      } else if Dropped(t) {
        ReadOn(front, rest, notice, name);
        assert [] + more == more;
      } else {
        StopsAt(front, Render(t, notice), more, name);
      }
    }
  }

  /** The output has a tag that begins with token k. */
  ghost predicate BeginsAt(ts: seq<Token>, k: nat, name: Bytes)
    requires k < |ts|
  {
    KeepsTag(ts[k], name) || (ts[k].Lone? && TagPrefix([LT] + ReadsOn(ts[k + 1..]), name))
  }

  lemma {:induction false} OutputHasTag(ts: seq<Token>, notice: Bytes, name: Bytes)
    requires Suits(notice, name) && forall t :: t in ts ==> WellFormed(t)
    ensures HasTag(RenderAll(ts, notice), name) <==> exists k: nat :: k < |ts| && BeginsAt(ts, k, name)
  {
    hide TagPrefix, Render, WellFormed, KeepsTag, IsTagName, Harmless;
    if ts == [] {
      assert !HasTag([], name);
    } else {
      var rest := ts[1..];
      OutputHasTag(rest, notice, name);
      OneToken(ts[0], RenderAll(rest, notice), notice, name);
      ReadOn([LT], rest, notice, name);
      forall k: nat | 0 < k < |ts|
        ensures BeginsAt(ts, k, name) <==> BeginsAt(rest, k - 1, name)
      {
        assert ts[k + 1..] == rest[k..];
      }
      hide HasTag;
      if exists k: nat :: k < |rest| && BeginsAt(rest, k, name) {
        var k: nat :| k < |rest| && BeginsAt(rest, k, name);
        assert BeginsAt(ts, k + 1, name);
      }
      assert BeginsAt(ts, 0, name) <==>
        KeepsTag(ts[0], name) || (ts[0].Lone? && TagPrefix([LT] + ReadsOn(rest), name));
    }
  }

  // ---- The same, told from the input ----

  /** A tag name and what may follow it have no '<' but the first. */
  lemma TagBegin(rem: Bytes, name: Bytes)
    requires TagPrefix(rem, name) && IsTagName(name)
    ensures |rem| >= |name| && rem[0] == LT
    ensures forall j :: 0 < j < |rem| && j <= |name| ==> rem[j] != LT
  {
    forall j | 0 <= j < |name|
      ensures Lower(rem[j]) == name[j]
    {
      Spelled(rem, name, j);
    }
  }

  /** After the '<' of a tag comes a text that has the rest of its name, or all that is left of the input. */
  lemma NameIsText(rest: Bytes, injected: bool, n: nat)
    requires 0 < n <= |rest| && forall j :: 0 <= j < |rest| && j <= n ==> rest[j] != LT
    ensures var t := TokenAt(rest, injected);
      t.Text? && (t.src == rest || |t.src| > n)
  {
    hide TagAt;
    IndexByteIsFirst(rest, LT);
  }

  /** Of the text after the '<', only the part that belongs to the tag matters. */
  lemma NameIsRead(rest: Bytes, text: Bytes, more: Bytes, name: Bytes)
    requires text <= rest && ((text == rest && more == []) || |text| >= |name|)
    ensures TagPrefix([LT] + (text + more), name) <==> TagPrefix([LT] + rest, name)
  {
    hide TagPrefix;
    if |text| >= |name| {
      var n := |name|;
      assert ([LT] + (text + more))[..n + 1] == [LT] + text[..n] == ([LT] + rest)[..n + 1];
      SameFront([LT] + (text + more), [LT] + rest, name);
    } else {
      assert text + more == rest;
    }
  }

  /** A tag that no rule applies to passes: its '<' alone, and its name as the text after it. */
  lemma LoneTagPasses(rem: Bytes, injected: bool, name: Bytes)
    requires IsTagName(name) && TagPrefix(rem, name) && TokenAt(rem, injected).Lone?
    ensures TagPrefix([LT] + ReadsOn(Tokens(rem, injected)[1..]), name)
  {
    TokenIsWellFormed(rem, injected);
    TagBegin(rem, name);
    var rest := rem[1..];
    NameIsText(rest, injected, |name| - 1);
    hide TagPrefix, TokenAt;
    assert rem == [LT] + rest;
    assert Tokens(rem, injected)[1..] == Tokens(rest, injected);
    var t := TokenAt(rest, injected);
    var later := Tokens(rest, injected)[1..];
    if t.src == rest {
      assert rest[|t.src|..] == [];
      assert Tokens([], injected || t.Body?) == [];
      assert later == [];
    }
    NameIsRead(rest, t.src, ReadsOn(later), name);
  }

  /** A tag is recognised by its name and the next byte. */
  lemma SameFront(a: Bytes, b: Bytes, name: Bytes)
    requires |a| > |name| && |b| > |name| && a[..|name| + 1] == b[..|name| + 1]
    ensures TagPrefix(a, name) <==> TagPrefix(b, name)
  {
    var n := |name|;
    assert forall j :: 0 <= j <= n ==> a[j] == a[..n + 1][j] == b[..n + 1][j] == b[j];
    if TagPrefix(a, name) {
      forall j | 0 <= j < n ensures Lower(b[0 + j]) == name[j] { Spelled(a, name, j); }
    }
    if TagPrefix(b, name) {
      forall j | 0 <= j < n ensures Lower(a[0 + j]) == name[j] { Spelled(b, name, j); }
    }
  }

  /** A tag at a token boundary is passed over as a lone '<' exactly if its end is missing. */
  lemma LoneIffUnclosed(rem: Bytes, injected: bool, tag: Tag)
    requires rem != [] && TagPrefix(rem, Name(tag))
    ensures TokenAt(rem, injected).Lone? <==> Unclosed(rem, tag)
  {
    NamesAreTagNames(tag);
    TagBegin(rem, Name(tag));
    hide TagPrefix, IndexFold, IndexByte, TokenAt, Ascii;
    RuleAppliesIff(rem, injected);
    TagNamesDiffer(rem);
  }

  lemma BeginsAtIff(input: Bytes, k: nat, tag: Tag)
    requires k < |Tokens(input, false)|
    ensures var ts := Tokens(input, false);
      BeginsAt(ts, k, Name(tag))
      <==> KeepsTag(ts[k], Name(tag)) || Unclosed(Sources(ts[k..]), tag) || Spliced(ts, k, Name(tag))
  {
    hide TagPrefix, Ends, KeepsTag, TokenAt, Name, IsTagName;
    var ts := Tokens(input, false);
    var rem := Sources(ts[k..]);
    var later := TokensFrom(input, false, k);
    assert ts[k..][0] == ts[k] && ts[k..][1..] == ts[k + 1..];
    assert rem != [] && ts[k] == TokenAt(rem, later);
    if TagPrefix(rem, Name(tag)) {
      NamesAreTagNames(tag);
      LoneIffUnclosed(rem, later, tag);
      if ts[k].Lone? {
        LoneTagPasses(rem, later, Name(tag));
      }
    }
  }

  /**
    Exactly when a script, style, link or image tag is in the output, for every document: some such tag at a token
    boundary is never closed, or a kept style block, link or body tag has one inside, or the texts around dropped
    tokens come together to one that the input does not have.
   */
  lemma TagSurvivesIff(input: Bytes, notice: Bytes, tag: Tag)
    requires Harmless(notice, Name(tag))
    ensures var ts := Tokens(input, false);
      HasTag(Stripped(input, notice), Name(tag)) <==> exists k: nat ::
        k < |ts| && (KeepsTag(ts[k], Name(tag)) || Unclosed(Sources(ts[k..]), tag) || Spliced(ts, k, Name(tag)))
  {
    hide Unclosed, KeepsTag, Spliced, BeginsAt, HasTag, WellFormed, Name, IsTagName, Harmless;
    var ts := Tokens(input, false);
    NamesAreTagNames(tag);
    PlaceholderIsHarmless(tag);
    TokensAreWellFormed(input, false);
    OutputHasTag(ts, notice, Name(tag));
    forall k: nat | k < |ts|
      ensures BeginsAt(ts, k, Name(tag))
        <==> KeepsTag(ts[k], Name(tag)) || Unclosed(Sources(ts[k..]), tag) || Spliced(ts, k, Name(tag))
    {
      BeginsAtIff(input, k, tag);
    }
  }

  // ---- Tags that the input does not have ----

  lemma {:induction false} LaterPart(ts: seq<Token>, k: nat, name: Bytes)
    requires k <= |ts| && HasTag(Sources(ts[k..]), name)
    ensures HasTag(Sources(ts), name)
  {
    hide HasTag;
    if k == 0 {
      assert ts[0..] == ts;
    } else {
      assert ts[1..][k - 1..] == ts[k..];
      LaterPart(ts[1..], k - 1, name);
      BeginsWithin(ts[0].src, Sources(ts[1..]), name);
    }
  }

  /** Two of the three ways let a tag of the input pass. */
  lemma PassedTagIsOld(ts: seq<Token>, k: nat, tag: Tag)
    requires k < |ts| && WellFormed(ts[k])
    requires KeepsTag(ts[k], Name(tag)) || Unclosed(Sources(ts[k..]), tag)
    ensures HasTag(Sources(ts), Name(tag))
  {
    hide TagPrefix, Ends, Name, IsTagName;
    NamesAreTagNames(tag);
    var rem := Sources(ts[k..]);
    assert ts[k..][0] == ts[k];
    if Unclosed(rem, tag) {
      TagBegin(rem, Name(tag));
      assert rem[0..] == rem;
    } else {
      ClosedPiece(ts[k].src, Sources(ts[k..][1..]), Name(tag));
    }
    LaterPart(ts, k, Name(tag));
  }

  /** A document without a tag of this kind gets one exactly if dropped tokens leave one behind at a lone '<'. */
  lemma NewTagIff(input: Bytes, notice: Bytes, tag: Tag)
    requires Harmless(notice, Name(tag)) && !HasTag(input, Name(tag))
    ensures var ts := Tokens(input, false);
      HasTag(Stripped(input, notice), Name(tag)) <==> exists k: nat :: k < |ts| && Spliced(ts, k, Name(tag))
  {
    hide HasTag, Unclosed, Spliced, KeepsTag, Tokens, WellFormed, Name, Harmless;
    var ts := Tokens(input, false);
    SourcesMakeInput(input, false);
    TokensAreWellFormed(input, false);
    TagSurvivesIff(input, notice, tag);
    forall k: nat | k < |ts|
      ensures !KeepsTag(ts[k], Name(tag)) && !Unclosed(Sources(ts[k..]), tag)
    {
      if KeepsTag(ts[k], Name(tag)) || Unclosed(Sources(ts[k..]), tag) {
        PassedTagIsOld(ts, k, tag);
      }
    }
  }

  lemma {:induction false} Undisturbed(front: Bytes, ts: seq<Token>, name: Bytes)
    requires front != [] && IsTagName(name) && forall t :: t in ts ==> WellFormed(t)
    requires forall m: nat :: m < |ts| && Dropped(ts[m]) ==> |front| + |Sources(ts[..m])| > |name|
    ensures TagPrefix(front + ReadsOn(ts), name) <==> TagPrefix(front + Sources(ts), name)
    decreases |ts|
  {
    hide TagPrefix, IsTagName;
    if |front| > |name| {
      SameFront(front + ReadsOn(ts), front + Sources(ts), name);
    } else if ts != [] {
      var t, rest := ts[0], ts[1..];
      assert WellFormed(t) && ts[..0] == [];
      assert !Dropped(t);
      if t.Text? {
        forall m: nat | m < |rest| && Dropped(rest[m])
          ensures |front + t.src| + |Sources(rest[..m])| > |name|
        {
          assert ts[..m + 1] == [t] + rest[..m];
          assert ts[..m + 1][1..] == rest[..m];
        }
        Undisturbed(front + t.src, rest, name);
        assert front + (t.src + ReadsOn(rest)) == front + t.src + ReadsOn(rest);
        assert front + (t.src + Sources(rest)) == front + t.src + Sources(rest);
      } else {
        StopsAt(front, t.src, Sources(rest), name);
      }
    }
  }

  /**
    Only a token dropped within the name of the tag and the byte after it can make one: text of that length is read
    as it was.
   */
  lemma SpliceNeedsDrop(input: Bytes, k: nat, tag: Tag)
    requires k < |Tokens(input, false)| && Spliced(Tokens(input, false), k, Name(tag))
    ensures var ts := Tokens(input, false);
      exists m: nat :: k < m < |ts| && Dropped(ts[m]) && |Sources(ts[k..m])| <= |Name(tag)|
  {
    hide TagPrefix, Tokens, Name, IsTagName;
    var ts, name := Tokens(input, false), Name(tag);
    NamesAreTagNames(tag);
    TokensAreWellFormed(input, false);
    var rest := ts[k + 1..];
    assert ts[k..][1..] == rest;
    assert WellFormed(ts[k]);
    if forall m: nat :: m < |rest| && Dropped(rest[m]) ==> 1 + |Sources(rest[..m])| > |name| {
      Undisturbed([LT], rest, name);
    } else {
      var m: nat :| m < |rest| && Dropped(rest[m]) && 1 + |Sources(rest[..m])| <= |name|;
      assert ts[k..k + 1 + m][1..] == rest[..m];
      assert Dropped(ts[k + 1 + m]);
    }
  }

  // ---- The notice of the source ----

  lemma NoBracket(s: string)
    requires forall i :: 0 <= i < |s| ==> s[i] as int < 256 && s[i] != '<'
    ensures LT !in Ascii(s)
  {
  }

  lemma BannerText()
    ensures LT !in BANNER_TEXT
  {
    hide Ascii;
    NoBracket(" PeakShield Active: High Traffic");
    NoBracket(" Mode. Assets stripped to ");
    NoBracket("conserve bandwidth.");
  }

  lemma BannerStyle()
    ensures LT !in BANNER_STYLE
  {
    hide Ascii;
    NoBracket("font-family:sans-serif;");
    NoBracket("font-weight:bold;z-index:999999;");
    NoBracket("position:relative;");
    NoBracket("border-bottom:2px solid #b45309\">");
  }

  lemma BannerId()
    ensures LT !in BANNER_ID
  {
    hide Ascii;
    NoBracket("id=\"peakshield-notice\" ");
    NoBracket("style=\"background:#f59e0b;");
    NoBracket("color:#fff;text-align:center;");
    NoBracket("padding:10px;");
  }

  /** The '<' of another tag. */
  lemma OtherTag(b: Bytes, more: Bytes, name: Bytes)
    requires IsTagName(name) && |b| > 1 && Lower(b[1]) != name[1] && LT !in b[1..]
    ensures HasTag(b + more, name) <==> HasTag(more, name)
  {
    assert Lower((b + more)[0 + 1]) != name[1];
    assert !TagPrefix(b + more, name);
    hide TagPrefix, HasTag, IsTagName;
    BeginsWithin(b[..1], b[1..] + more, name);
    TextPiece(b[1..], more, name);
    assert b[..1] + (b[1..] + more) == b + more;
    assert b[..1][0..] == b[..1];
  }

  lemma DivTags()
    ensures |END_DIV| > 1 && END_DIV[|END_DIV| - 1] == GT && LT !in END_DIV[1..]
    ensures |START_DIV| > 1 && LT !in START_DIV[1..]
    ensures Lower(END_DIV[1]) as int == '/' as int && Lower(START_DIV[1]) as int == 'd' as int
  {
  }

  lemma BannerParts() returns (text: Bytes)
    ensures LT !in text && NOTICE == START_DIV + (text + END_DIV)
  {
    assert LT !in WARNING_SIGN;
    BannerId();
    BannerStyle();
    BannerText();
    hide WARNING_SIGN, BANNER_ID, BANNER_STYLE, BANNER_TEXT, START_DIV, END_DIV;
    text := BANNER_ID + BANNER_STYLE + WARNING_SIGN + BANNER_TEXT;
    assert NOTICE == START_DIV + (text + END_DIV);
  }

  lemma BannerHasOnly(name: Bytes)
    requires IsTagName(name) && name[1] != 'd' as int as byte
    ensures Harmless(NOTICE, name)
  {
    hide NOTICE, START_DIV, END_DIV, Lower, TagPrefix;
    DivTags();
    var text := BannerParts();
    OtherTag(END_DIV, [], name);
    assert END_DIV + [] == END_DIV;
    TextPiece(text, END_DIV, name);
    OtherTag(START_DIV, text + END_DIV, name);
  }

  /** The notice of the source meets the hypothesis of the theorems above, and has no body tag either. */
  lemma BannerIsHarmless(tag: Tag)
    ensures Harmless(NOTICE, Name(tag)) && Harmless(NOTICE, BODY)
  {
    NamesAreTagNames(tag);
    assert Name(tag)[1] != 'd' as int as byte && BODY[1] != 'd' as int as byte;
    hide Name, IsTagName, Harmless;
    BannerHasOnly(Name(tag));
    BannerHasOnly(BODY);
  }
}
