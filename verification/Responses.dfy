/**
  The buffering response of stripper/stripper.go as a value: what a sequence of handler calls does to the writer, and
  what the client finally gets. The object of module StripperWriters refines it.
 */
module Responses {
  import opened Scanner
  import opened Tokenizer
  import opened SpelledOut

  /** What a handler does with its ResponseWriter. */
  datatype Call =
    | SetContentType(value: Bytes)
    | SetContentLength(value: Bytes)
    | WriteHeader(code: nat)
    | Write(chunk: Bytes)

  /** What goes out with a call of WriteHeader: the status, and the headers as they are at that moment. */
  datatype Head = Head(code: nat, contentType: Bytes, contentLength: Bytes)

  /**
    The client's side: the headers that matter here ([] if not set), which stay open to changes, and the heads and the
    body sent so far.
   */
  datatype Client = Client(contentType: Bytes, contentLength: Bytes, sent: seq<Head>, body: Bytes)

  function SendHead(c: Client, code: nat): Client
  {
    c.(sent := c.sent + [Head(code, c.contentType, c.contentLength)])
  }

  /** A stripperWriter in front of the client. */
  datatype Writer = Writer(client: Client, active: bool, headerWritten: bool, status: nat, isHTML: bool, buf: Bytes)

  const TEXT_HTML: Bytes := Ascii("text/html")

  /** strings.Contains(strings.ToLower(contentType), "text/html"). */
  predicate MentionsHtml(contentType: Bytes)
  {
    IndexFold(contentType, TEXT_HTML) != -1
  }

  /** The writer that Middleware puts in front of the client. */
  function Fresh(client: Client): Writer
  {
    Writer(client, true, false, 0, false, [])
  }

  function AfterWriteHeader(w: Writer, code: nat): Writer
  {
    if w.headerWritten then w
    else
      var v := w.(headerWritten := true, status := code);
      if w.active && MentionsHtml(w.client.contentType) then
        v.(isHTML := true, client := w.client.(contentLength := []))
      else
        v.(client := SendHead(w.client, code))
  }

  /** sniff stands for http.DetectContentType. */
  function AfterWrite(w: Writer, chunk: Bytes, sniff: Bytes -> Bytes): Writer
  {
    var v :=
      if w.headerWritten then w
      else
        var ct := if w.client.contentType == [] then sniff(chunk) else w.client.contentType;
        AfterWriteHeader(w.(client := w.client.(contentType := ct)), 200);
    if v.isHTML then v.(buf := v.buf + chunk)
    else v.(client := v.client.(body := v.client.body + chunk))
  }

  function AfterCall(w: Writer, c: Call, sniff: Bytes -> Bytes): Writer
  {
    match c
    case SetContentType(value) => w.(client := w.client.(contentType := value))
    case SetContentLength(value) => w.(client := w.client.(contentLength := value))
    case WriteHeader(code) => AfterWriteHeader(w, code)
    case Write(chunk) => AfterWrite(w, chunk, sniff)
  }

  function AfterCalls(w: Writer, calls: seq<Call>, sniff: Bytes -> Bytes): Writer
  {
    if calls == [] then w
    else AfterCall(AfterCalls(w, calls[..|calls| - 1], sniff), calls[|calls| - 1], sniff)
  }

  /** What Middleware does when the handler has returned. */
  function Delivered(w: Writer, notice: Bytes): Client
  {
    if w.isHTML then
      var c := SendHead(w.client, w.status);
      c.(body := c.body + Stripped(w.buf, notice))
    else w.client
  }

  // ---- What a handler means, however it cuts its output ----

  function Written(calls: seq<Call>): Bytes
  {
    if calls == [] then []
    else
      var n := |calls| - 1;
      Written(calls[..n]) + if calls[n].Write? then calls[n].chunk else []
  }

  predicate Commits(c: Call) { c.WriteHeader? || c.Write? }

  /** The first call that writes, if there is one. */
  function FirstCommit(calls: seq<Call>): (k: nat)
    ensures k <= |calls|
    ensures k < |calls| ==> calls[k].WriteHeader? || calls[k].Write?
    ensures forall i :: 0 <= i < k ==> !calls[i].WriteHeader? && !calls[i].Write?
  {
    if calls == [] || Commits(calls[0]) then 0 else 1 + FirstCommit(calls[1..])
  }

  /** The explicit status of the first WriteHeader if nothing was written before it, else 200. */
  function Status(c: Call): nat { if c.WriteHeader? then c.code else 200 }

  /** The content type that the calls leave, if it was `initial` before. */
  function TypeSet(initial: Bytes, calls: seq<Call>): Bytes
  {
    if calls == [] then initial
    else
      var n := |calls| - 1;
      if calls[n].SetContentType? then calls[n].value else TypeSet(initial, calls[..n])
  }

  /** The content length that the calls leave, likewise. */
  function LengthSet(initial: Bytes, calls: seq<Call>): Bytes
  {
    if calls == [] then initial
    else
      var n := |calls| - 1;
      if calls[n].SetContentLength? then calls[n].value else LengthSet(initial, calls[..n])
  }

  /** The content type that the first call that writes finds. */
  function TypeUsed(initial: Bytes, calls: seq<Call>, sniff: Bytes -> Bytes): Bytes
    requires FirstCommit(calls) < |calls|
  {
    var k := FirstCommit(calls);
    var set_ := TypeSet(initial, calls[..k]);
    if set_ == [] && calls[k].Write? then sniff(calls[k].chunk) else set_
  }

  lemma {:induction false} FirstCommitOfPrefix(calls: seq<Call>, n: nat)
    requires n <= |calls|
    ensures FirstCommit(calls[..n]) == if FirstCommit(calls) < n then FirstCommit(calls) else n
  {
    if n > 0 && !Commits(calls[0]) {
      assert calls[..n][1..] == calls[1..][..n - 1];
      FirstCommitOfPrefix(calls[1..], n - 1);
    }
  }

  /**
    A writer that has decided with a call of status `code`, under the headers type_ and length, and has seen `later`
    since, and `body` in all.
   */
  predicate Decided(w: Writer, client: Client, code: nat, type_: Bytes, length: Bytes, later: seq<Call>, body: Bytes)
  {
    && w.headerWritten && w.active && w.status == code
    && w.isHTML == MentionsHtml(type_)
    && w.client.contentType == TypeSet(type_, later)
    && w.client.contentLength == LengthSet(if w.isHTML then [] else length, later)
    && if w.isHTML then
         w.buf == body && w.client.body == client.body && w.client.sent == client.sent
       else
         && w.buf == [] && w.client.body == client.body + body
         && w.client.sent == client.sent + [Head(code, type_, length)]
  }

  /** The writer told from the calls alone. */
  predicate Describes(w: Writer, client: Client, calls: seq<Call>, sniff: Bytes -> Bytes)
  {
    var k := FirstCommit(calls);
    if k == |calls| then
      w == Fresh(client.(contentType := TypeSet(client.contentType, calls),
                         contentLength := LengthSet(client.contentLength, calls)))
    else
      Decided(w, client, Status(calls[k]), TypeUsed(client.contentType, calls, sniff),
              LengthSet(client.contentLength, calls[..k]), calls[k + 1..], Written(calls))
  }

  lemma CallBeforeCommit(w: Writer, client: Client, calls: seq<Call>, c: Call, sniff: Bytes -> Bytes)
    requires Describes(w, client, calls, sniff) && FirstCommit(calls) == |calls| && !Commits(c)
    ensures Describes(AfterCall(w, c, sniff), client, calls + [c], sniff)
  {
    assert (calls + [c])[..|calls|] == calls;
    FirstCommitOfPrefix(calls + [c], |calls|);
  }

  lemma CommitIsLast(calls: seq<Call>, c: Call, initial: Bytes, sniff: Bytes -> Bytes)
    requires FirstCommit(calls) == |calls| && Commits(c)
    ensures FirstCommit(calls + [c]) == |calls|
    ensures var set_ := TypeSet(initial, calls);
      TypeUsed(initial, calls + [c], sniff) == if set_ == [] && c.Write? then sniff(c.chunk) else set_
    ensures Written(calls + [c]) == if c.Write? then c.chunk else []
    ensures (calls + [c])[|calls| + 1..] == [] && (calls + [c])[..|calls|] == calls
  {
    assert (calls + [c])[..|calls|] == calls && Commits((calls + [c])[|calls|]);
    FirstCommitOfPrefix(calls + [c], |calls|);
    NoBodyBeforeCommit(calls);
  }

  lemma NoCallsNoHeaders()
    ensures forall initial :: TypeSet(initial, []) == initial && LengthSet(initial, []) == initial
  {
  }

  lemma CallThatCommits(w: Writer, client: Client, calls: seq<Call>, c: Call, sniff: Bytes -> Bytes)
    requires Describes(w, client, calls, sniff) && FirstCommit(calls) == |calls| && Commits(c)
    ensures Describes(AfterCall(w, c, sniff), client, calls + [c], sniff)
  {
    hide MentionsHtml, FirstCommit, TypeUsed, TypeSet, LengthSet, Written;
    NoCallsNoHeaders();
    CommitIsLast(calls, c, client.contentType, sniff);
    assert client.body + [] == client.body;
    if c.Write? {
      assert [] + c.chunk == c.chunk;
    }
  }

  lemma BodyAfter(calls: seq<Call>, c: Call)
    ensures Written(calls + [c]) == Written(calls) + if c.Write? then c.chunk else []
  {
    assert (calls + [c])[..|calls|] == calls;
  }

  lemma OneCallMore(calls: seq<Call>, c: Call, k: nat)
    requires k < |calls|
    ensures var all := calls + [c];
      all[..k] == calls[..k] && all[k] == calls[k] && all[k + 1..] == calls[k + 1..] + [c]
  {
  }

  lemma HeadersAfter(initial: Bytes, calls: seq<Call>, c: Call)
    ensures TypeSet(initial, calls + [c]) == if c.SetContentType? then c.value else TypeSet(initial, calls)
    ensures LengthSet(initial, calls + [c]) == if c.SetContentLength? then c.value else LengthSet(initial, calls)
  {
    assert (calls + [c])[..|calls|] == calls;
  }

  lemma CommitStays(calls: seq<Call>, c: Call, initial: Bytes, sniff: Bytes -> Bytes)
    requires FirstCommit(calls) < |calls|
    ensures FirstCommit(calls + [c]) == FirstCommit(calls)
    ensures TypeUsed(initial, calls + [c], sniff) == TypeUsed(initial, calls, sniff)
  {
    hide FirstCommit, TypeSet;
    var all := calls + [c];
    assert all[..|calls|] == calls;
    FirstCommitOfPrefix(all, |calls|);
    OneCallMore(calls, c, FirstCommit(calls));
  }

  lemma DecidedStays(w: Writer, client: Client, code: nat, type_: Bytes, length: Bytes, later: seq<Call>, body: Bytes,
                     c: Call, sniff: Bytes -> Bytes)
    requires Decided(w, client, code, type_, length, later, body)
    ensures Decided(AfterCall(w, c, sniff), client, code, type_, length, later + [c],
                    body + if c.Write? then c.chunk else [])
  {
    hide MentionsHtml, TypeSet, LengthSet;
    HeadersAfter(type_, later, c);
    HeadersAfter(if w.isHTML then [] else length, later, c);
    assert body + [] == body;
    if c.Write? {
      assert client.body + body + c.chunk == client.body + (body + c.chunk);
    }
  }

  lemma CallAfterCommit(w: Writer, client: Client, calls: seq<Call>, c: Call, sniff: Bytes -> Bytes)
    requires Describes(w, client, calls, sniff) && FirstCommit(calls) < |calls|
    ensures Describes(AfterCall(w, c, sniff), client, calls + [c], sniff)
  {
    hide Decided, FirstCommit, TypeUsed, TypeSet, LengthSet, Written, AfterCall;
    var k := FirstCommit(calls);
    CommitStays(calls, c, client.contentType, sniff);
    OneCallMore(calls, c, k);
    BodyAfter(calls, c);
    DecidedStays(w, client, Status(calls[k]), TypeUsed(client.contentType, calls, sniff),
                 LengthSet(client.contentLength, calls[..k]), calls[k + 1..], Written(calls), c, sniff);
  }

  lemma {:induction false} WriterAfter(client: Client, calls: seq<Call>, sniff: Bytes -> Bytes)
    ensures Describes(AfterCalls(Fresh(client), calls, sniff), client, calls, sniff)
  {
    hide Describes, AfterCall;
    if calls == [] {
      NoCalls(client, sniff);
    } else {
      var n := |calls| - 1;
      var before, c := calls[..n], calls[n];
      WriterAfter(client, before, sniff);
      var w := AfterCalls(Fresh(client), before, sniff);
      assert before + [c] == calls;
      if FirstCommit(before) < n {
        CallAfterCommit(w, client, before, c, sniff);
      } else if Commits(c) {
        CallThatCommits(w, client, before, c, sniff);
      } else {
        CallBeforeCommit(w, client, before, c, sniff);
      }
    }
  }

  lemma NoCalls(client: Client, sniff: Bytes -> Bytes)
    ensures Describes(Fresh(client), client, [], sniff)
  {
    assert client.(contentType := client.contentType, contentLength := client.contentLength) == client;
  }

  lemma {:induction false} NoBodyBeforeCommit(calls: seq<Call>)
    requires forall i :: 0 <= i < |calls| ==> !Commits(calls[i])
    ensures Written(calls) == []
  {
    if calls != [] {
      NoBodyBeforeCommit(calls[..|calls| - 1]);
    }
  }

  lemma ClientGets(client: Client, calls: seq<Call>, sniff: Bytes -> Bytes, notice: Bytes)
    ensures var got := Delivered(AfterCalls(Fresh(client), calls, sniff), notice);
      var k := FirstCommit(calls);
      if k == |calls| then
        got.sent == client.sent && got.body == client.body
      else
        var type_ := TypeUsed(client.contentType, calls, sniff);
        if MentionsHtml(type_) then
          && got.sent == client.sent +
               [Head(Status(calls[k]), TypeSet(type_, calls[k + 1..]), LengthSet([], calls[k + 1..]))]
          && got.body == client.body + Stripped(Written(calls), notice)
        else
          && got.sent == client.sent + [Head(Status(calls[k]), type_, LengthSet(client.contentLength, calls[..k]))]
          && got.body == client.body + Written(calls)
  {
    hide MentionsHtml, Stripped, TypeSet, LengthSet;
    WriterAfter(client, calls, sniff);
  }

  lemma HtmlMeans(contentType: Bytes)
    ensures MentionsHtml(contentType) <==> exists i: nat :: Says(contentType, i, "text/html")
  {
    assert Plain("text/html");
    hide Says, IndexFold, Ascii;
    SearchMeans(contentType, "text/html");
  }

  /**
    The client gets one head, with the first status, and a body that is the stripped or the verbatim concatenation of
    the chunks, depending on the content type in force at the first call that writes; and nothing if the handler wrote
    nothing. The headers of a verbatim response are those in force at that call. A stripped response is held back until
    the handler has returned: it forgets the length set before that call and goes out with whatever is set after it.
   */
  lemma ClientSees(client: Client, calls: seq<Call>, sniff: Bytes -> Bytes, notice: Bytes)
    ensures var got := Delivered(AfterCalls(Fresh(client), calls, sniff), notice);
      var k := FirstCommit(calls);
      if k == |calls| then
        got.sent == client.sent && got.body == client.body
      else
        var code := if calls[k].WriteHeader? then calls[k].code else 200;
        var set_ := TypeSet(client.contentType, calls[..k]);
        var type_ := if set_ == [] && calls[k].Write? then sniff(calls[k].chunk) else set_;
        if exists i: nat :: Says(type_, i, "text/html") then
          && got.sent == client.sent + [Head(code, TypeSet(type_, calls[k + 1..]), LengthSet([], calls[k + 1..]))]
          && got.body == client.body + Stripped(Written(calls), notice)
        else
          && got.sent == client.sent + [Head(code, type_, LengthSet(client.contentLength, calls[..k]))]
          && got.body == client.body + Written(calls)
  {
    hide MentionsHtml, Stripped, TypeSet, LengthSet, AfterCalls, Delivered, FirstCommit, Says, Written;
    ClientGets(client, calls, sniff, notice);
    if FirstCommit(calls) < |calls| {
      HtmlMeans(TypeUsed(client.contentType, calls, sniff));
    }
  }

  /** The name of HTML in any case, with anything around it. */
  lemma HtmlIsRecognised(before: Bytes, name: Bytes, after: Bytes)
    requires OnlyCaseDiffers(name, Ascii("text/html"))
    ensures MentionsHtml(before + name + after)
  {
    var html := before + name + after;
    assert forall j :: 0 <= j < 9 ==> html[|before| + j] == name[j];
    assert Says(html, |before|, "text/html");
    hide MentionsHtml;
    HtmlMeans(html);
  }

  lemma ImagesAreNotHtml()
    ensures !MentionsHtml(Ascii("image/png"))
  {
    var png := Ascii("image/png");
    hide MentionsHtml;
    HtmlMeans(png);
    forall i: nat
      ensures !Says(png, i, "text/html")
    {
      assert i == 0 ==> png[0 + 0] as int != "text/html"[0] as int;
    }
  }

  /** A page of type "text/html", in any case and with whatever stands around it, say a charset, is rewritten. */
  lemma PagesAreStripped(client: Client, before: Bytes, name: Bytes, after: Bytes, calls: seq<Call>,
                         sniff: Bytes -> Bytes, notice: Bytes)
    requires OnlyCaseDiffers(name, Ascii("text/html")) && client.contentType == before + name + after
    requires calls != [] && forall c :: c in calls ==> c.WriteHeader? || c.Write?
    ensures Delivered(AfterCalls(Fresh(client), calls, sniff), notice).body
         == client.body + Stripped(Written(calls), notice)
  {
    hide MentionsHtml, Stripped, AfterCalls, Delivered, Ascii, OnlyCaseDiffers;
    HtmlIsRecognised(before, name, after);
    NameIsThere(before, name, after);
    WritesOnly(client, calls, sniff, notice);
  }

  /** A picture is not. */
  lemma PicturesPass(client: Client, calls: seq<Call>, sniff: Bytes -> Bytes, notice: Bytes)
    requires client.contentType == Ascii("image/png")
    requires calls != [] && forall c :: c in calls ==> c.WriteHeader? || c.Write?
    ensures Delivered(AfterCalls(Fresh(client), calls, sniff), notice).body == client.body + Written(calls)
  {
    hide MentionsHtml, Stripped, AfterCalls, Delivered, Ascii;
    ImagesAreNotHtml();
    WritesOnly(client, calls, sniff, notice);
  }

  lemma NameIsThere(before: Bytes, name: Bytes, after: Bytes)
    requires OnlyCaseDiffers(name, Ascii("text/html"))
    ensures before + name + after != []
  {
    assert |before + name + after| >= 9;
  }

  // ---- The parts of a handler's output ----

  /** A header is what it was before as long as it is not set, and then what it was set to last. */
  lemma {:induction false} LastSettingHolds(initial: Bytes, calls: seq<Call>, i: nat)
    ensures (forall j :: 0 <= j < |calls| ==> !calls[j].SetContentType?) ==> TypeSet(initial, calls) == initial
    ensures (forall j :: 0 <= j < |calls| ==> !calls[j].SetContentLength?) ==> LengthSet(initial, calls) == initial
    ensures i < |calls| && calls[i].SetContentType? && (forall j :: i < j < |calls| ==> !calls[j].SetContentType?) ==>
      TypeSet(initial, calls) == calls[i].value
    ensures i < |calls| && calls[i].SetContentLength? && (forall j :: i < j < |calls| ==> !calls[j].SetContentLength?)
      ==> LengthSet(initial, calls) == calls[i].value
    decreases |calls|
  {
    if calls != [] {
      LastSettingHolds(initial, calls[..|calls| - 1], i);
    }
  }

  /** The body is what the calls of Write bring, in order. */
  lemma OneChunk(c: Call)
    ensures Written([]) == [] && Written([c]) == if c.Write? then c.chunk else []
  {
    assert [c][..0] == [];
  }

  lemma {:induction false} ChunksJoin(a: seq<Call>, b: seq<Call>)
    ensures Written(a + b) == Written(a) + Written(b)
    decreases |b|
  {
    if b == [] {
      assert a + b == a;
    } else {
      var n := |b| - 1;
      assert (a + b)[..|a| + n] == a + b[..n];
      ChunksJoin(a, b[..n]);
    }
  }

  /** Where the calls of WriteHeader are. */
  function HeadCalls(calls: seq<Call>): (ps: seq<nat>)
    ensures forall n :: 0 <= n < |ps| ==> ps[n] < |calls| && calls[ps[n]].WriteHeader?
    ensures forall m, n :: 0 <= m < n < |ps| ==> ps[m] < ps[n]
    ensures forall k :: 0 <= k < |calls| && calls[k].WriteHeader? ==> k in ps
  {
    if calls == [] then []
    else
      var n := |calls| - 1;
      HeadCalls(calls[..n]) + if calls[n].WriteHeader? then [n] else []
  }

  /** A call sets a content length, and no later one changes it. */
  ghost predicate SetsLengthLast(calls: seq<Call>, i: nat)
  {
    && i < |calls| && calls[i].SetContentLength? && calls[i].value != []
    && forall j :: i < j < |calls| ==> !calls[j].SetContentLength?
  }

  lemma {:induction false} LengthSetIff(calls: seq<Call>)
    ensures LengthSet([], calls) != [] <==> exists i: nat :: SetsLengthLast(calls, i)
  {
    if calls != [] {
      var n := |calls| - 1;
      LengthSetIff(calls[..n]);
      if calls[n].SetContentLength? {
        assert SetsLengthLast(calls, n) <==> calls[n].value != [];
        assert forall i: nat :: SetsLengthLast(calls, i) ==> i == n;
      } else {
        assert forall i: nat :: SetsLengthLast(calls, i) <==> SetsLengthLast(calls[..n], i);
      }
    }
  }

  /**
    Whether a stripped body goes out with a Content-Length, which then is not its own: exactly if the handler sets one
    after its first call that writes and does not take it back.
   */
  lemma StaleLengthIff(client: Client, calls: seq<Call>, sniff: Bytes -> Bytes, notice: Bytes)
    requires FirstCommit(calls) < |calls| && MentionsHtml(TypeUsed(client.contentType, calls, sniff))
    ensures var got := Delivered(AfterCalls(Fresh(client), calls, sniff), notice);
      && |got.sent| == |client.sent| + 1
      && (got.sent[|client.sent|].contentLength != [] <==>
            exists i: nat :: i > FirstCommit(calls) && SetsLengthLast(calls, i))
  {
    hide MentionsHtml, Stripped, FirstCommit, AfterCalls, Delivered, TypeUsed, LengthSet;
    ClientGets(client, calls, sniff, notice);
    var k := FirstCommit(calls);
    LengthSetIff(calls[k + 1..]);
    forall i: nat | i > k
      ensures SetsLengthLast(calls, i) <==> SetsLengthLast(calls[k + 1..], i - k - 1)
    {
    }
    var later := calls[k + 1..];
    if exists i: nat :: SetsLengthLast(later, i) {
      var i: nat :| SetsLengthLast(later, i);
      assert SetsLengthLast(calls, i + k + 1);
    }
  }

  lemma {:induction false} HeadersKept(initial: Bytes, calls: seq<Call>)
    requires forall c :: c in calls ==> Commits(c)
    ensures TypeSet(initial, calls) == initial && LengthSet(initial, calls) == initial
  {
    if calls != [] {
      var n := |calls| - 1;
      assert Commits(calls[n]);
      HeadersKept(initial, calls[..n]);
    }
  }

  /** What a handler gets that sets its headers beforehand, if it sets any, and then only writes. */
  lemma WritesOnly(client: Client, calls: seq<Call>, sniff: Bytes -> Bytes, notice: Bytes)
    requires client.contentType != [] && calls != [] && forall c :: c in calls ==> Commits(c)
    ensures var got := Delivered(AfterCalls(Fresh(client), calls, sniff), notice);
      var html := MentionsHtml(client.contentType);
      && got.sent == client.sent +
           [Head(Status(calls[0]), client.contentType, if html then [] else client.contentLength)]
      && got.body == client.body + if html then Stripped(Written(calls), notice) else Written(calls)
  {
    hide MentionsHtml, Stripped, AfterCalls, Delivered;
    assert Commits(calls[0]);
    ClientGets(client, calls, sniff, notice);
    HeadersKept(client.contentType, calls[1..]);
    HeadersKept([], calls[1..]);
  }

  /** With the content type set beforehand, it does not matter how the handler cuts its output into chunks. */
  lemma ChunksDoNotMatter(client: Client, calls: seq<Call>, other: seq<Call>, sniff: Bytes -> Bytes, notice: Bytes)
    requires client.contentType != []
    requires forall c :: c in calls + other ==> Commits(c)
    requires calls != [] && other != [] && Status(calls[0]) == Status(other[0]) && Written(calls) == Written(other)
    ensures Delivered(AfterCalls(Fresh(client), calls, sniff), notice).sent
         == Delivered(AfterCalls(Fresh(client), other, sniff), notice).sent
    ensures Delivered(AfterCalls(Fresh(client), calls, sniff), notice).body
         == Delivered(AfterCalls(Fresh(client), other, sniff), notice).body
  {
    hide Delivered, AfterCalls, MentionsHtml, Stripped, Commits;
    forall c | c in calls || c in other
      ensures Commits(c)
    {
      assert c in calls + other;
    }
    WritesOnly(client, calls, sniff, notice);
    WritesOnly(client, other, sniff, notice);
  }
}
