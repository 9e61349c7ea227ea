/** The stripperWriter and the Middleware of stripper/stripper.go as objects updated in place. */
module StripperWriters {
  import opened Scanner
  import opened Tokenizer
  import opened Responses
  import opened SpelledOut
  import opened Stripper

  /** The http.ResponseWriter below, with its header map, recording what it is told. */
  class ResponseWriter {
    var contentType: Bytes
    var contentLength: Bytes
    var sent: seq<Head>
    var body: Bytes

    constructor (contentType: Bytes, contentLength: Bytes)
      ensures View() == Client(contentType, contentLength, [], [])
    {
      this.contentType := contentType;
      this.contentLength := contentLength;
      sent, body := [], [];
    }

    ghost function View(): Client
      reads this
    {
      Client(contentType, contentLength, sent, body)
    }

    method WriteHeader(code: nat)
      modifies this
      ensures View() == SendHead(old(View()), code)
    {
      sent := sent + [Head(code, contentType, contentLength)];
    }

    method Write(chunk: Bytes)
      modifies this
      ensures View() == old(View()).(body := old(body) + chunk)
    {
      body := body + chunk;
    }
  }

  class StripperWriter {
    const w: ResponseWriter
    const buf: Buffer
    const active: bool
    var status: nat
    var headerWritten: bool
    var isHTML: bool

    constructor (w: ResponseWriter, buf: Buffer, active: bool)
      ensures this.w == w && this.buf == buf
      ensures View() == Writer(w.View(), active, false, 0, false, buf.data)
    {
      this.w, this.buf, this.active := w, buf, active;
      status, headerWritten, isHTML := 0, false, false;
    }

    ghost function View(): Writer
      reads this, w, buf
    {
      Writer(w.View(), active, headerWritten, status, isHTML, buf.data)
    }

    method WriteHeader(code: nat)
      modifies this, w
      ensures View() == AfterWriteHeader(old(View()), code)
      ensures old(headerWritten) ==> View() == old(View())
      ensures !old(headerWritten) ==> headerWritten && status == code && w.body == old(w.body)
      ensures !old(headerWritten) ==>
        if active && exists i: nat :: Says(old(w.contentType), i, "text/html") then
          isHTML && w.contentLength == [] && w.contentType == old(w.contentType) && w.sent == old(w.sent)
        else
          && isHTML == old(isHTML) && w.contentLength == old(w.contentLength) && w.contentType == old(w.contentType)
          && w.sent == old(w.sent) + [Head(code, old(w.contentType), old(w.contentLength))]
    {
      hide Says, IndexFold;
      HtmlMeans(w.contentType);
      if headerWritten {
        return;
      }
      status := code;
      headerWritten := true;
      if active {
        var at := FindFold(w.contentType, TEXT_HTML);
        if at != -1 {
          isHTML := true;
          w.contentLength := [];
          return;
        }
      }
      w.WriteHeader(code);
    }

    method Write(chunk: Bytes, sniff: Bytes -> Bytes)
      modifies this, w, buf
      ensures View() == AfterWrite(old(View()), chunk, sniff)
      ensures old(headerWritten) ==> status == old(status) && isHTML == old(isHTML) && w.sent == old(w.sent)
      ensures !old(headerWritten) ==>
        status == 200 && w.contentType == if old(w.contentType) == [] then sniff(chunk) else old(w.contentType)
      ensures isHTML ==> buf.data == old(buf.data) + chunk && w.body == old(w.body)
      ensures !isHTML ==> buf.data == old(buf.data) && w.body == old(w.body) + chunk
    {
      if !headerWritten {
        if w.contentType == [] {
          w.contentType := sniff(chunk);
        }
        WriteHeader(200);
      }
      if isHTML {
        buf.Write(chunk);
      } else {
        w.Write(chunk);
      }
    }
  }

  /** The banner; the warning sign in it is six bytes of UTF-8. */
  const NOTICE: Bytes := START_DIV + BANNER_ID + BANNER_STYLE + WARNING_SIGN + BANNER_TEXT + END_DIV

  const START_DIV: Bytes := Ascii("<div ")

  const BANNER_ID: Bytes :=
    Ascii("id=\"peakshield-notice\" ") + Ascii("style=\"background:#f59e0b;") +
    Ascii("color:#fff;text-align:center;") + Ascii("padding:10px;")

  const BANNER_STYLE: Bytes :=
    Ascii("font-family:sans-serif;") + Ascii("font-weight:bold;z-index:999999;") + Ascii("position:relative;") +
    Ascii("border-bottom:2px solid #b45309\">")

  const WARNING_SIGN: Bytes := [0xE2, 0x9A, 0xA0, 0xEF, 0xB8, 0x8F]

  const BANNER_TEXT: Bytes :=
    Ascii(" PeakShield Active: High Traffic") + Ascii(" Mode. Assets stripped to ") + Ascii("conserve bandwidth.")

  const END_DIV: Bytes := Ascii("</div>")

  /**
    What a handler gets that writes to the response writer itself: the headers last set, all chunks, and for each call
    of WriteHeader a head with its code and the headers as the calls before it leave them.
   */
  ghost predicate Bypassed(c: Client, calls: seq<Call>, d: Client)
  {
    && d.contentType == TypeSet(c.contentType, calls) && d.contentLength == LengthSet(c.contentLength, calls)
    && d.body == c.body + Written(calls)
    && |d.sent| == |c.sent| + |HeadCalls(calls)| && c.sent <= d.sent
    && forall n :: 0 <= n < |HeadCalls(calls)| ==>
         var p := HeadCalls(calls)[n];
         d.sent[|c.sent| + n]
         == Head(calls[p].code, TypeSet(c.contentType, calls[..p]), LengthSet(c.contentLength, calls[..p]))
  }

  /** One call more, made to the response writer itself. */
  function Directly(d: Client, call: Call): Client
  {
    match call
    case SetContentType(value) => d.(contentType := value)
    case SetContentLength(value) => d.(contentLength := value)
    case WriteHeader(code) => SendHead(d, code)
    case Write(chunk) => d.(body := d.body + chunk)
  }

  lemma OneMoreDirectly(c: Client, calls: seq<Call>, d: Client, call: Call)
    requires Bypassed(c, calls, d)
    ensures Bypassed(c, calls + [call], Directly(d, call))
  {
    var all, n := calls + [call], |calls|;
    assert all[..n] == calls;
    assert forall p: nat :: p <= n ==> all[..p] == calls[..p];
    assert c.body + Written(calls) + [] == c.body + Written(calls);
    if call.Write? {
      assert c.body + Written(calls) + call.chunk == c.body + (Written(calls) + call.chunk);
    }
  }

  lemma NothingDirectly(c: Client)
    ensures Bypassed(c, [], c)
  {
  }

  /** Below the threshold the handler writes to the response writer itself. */
  method ServeDirectly(w: ResponseWriter, calls: seq<Call>)
    modifies w
    ensures Bypassed(old(w.View()), calls, w.View())
  {
    hide Bypassed;
    NothingDirectly(w.View());
    assert calls[..0] == [];
    for n := 0 to |calls|
      invariant Bypassed(old(w.View()), calls[..n], w.View())
    {
      OneMoreDirectly(old(w.View()), calls[..n], w.View(), calls[n]);
      assert calls[..n + 1] == calls[..n] + [calls[n]];
      match calls[n]
      case SetContentType(value) => w.contentType := value;
      case SetContentLength(value) => w.contentLength := value;
      case WriteHeader(code) => w.WriteHeader(code);
      case Write(chunk) => w.Write(chunk);
    }
    assert calls[..|calls|] == calls;
  }

  /** Above it, through a stripperWriter, with the buffers that the pool hands out. */
  method ServeStripped(w: ResponseWriter, calls: seq<Call>, sniff: Bytes -> Bytes, pooled: Buffer, spare: Buffer)
    requires pooled != spare
    modifies w, pooled, spare
    ensures w.View() == Delivered(AfterCalls(Fresh(old(w.View())), calls, sniff), NOTICE)
  {
    pooled.Reset();
    var sw := new StripperWriter(w, pooled, true);
    for n := 0 to |calls|
      invariant sw.w == w && sw.buf == pooled
      invariant sw.View() == AfterCalls(Fresh(old(w.View())), calls[..n], sniff)
    {
      assert calls[..n + 1][..n] == calls[..n];
      match calls[n]
      case SetContentType(value) => w.contentType := value;
      case SetContentLength(value) => w.contentLength := value;
      case WriteHeader(code) => sw.WriteHeader(code);
      case Write(chunk) => sw.Write(chunk, sniff);
    }
    assert calls[..|calls|] == calls;
    if sw.isHTML {
      spare.Reset();
      StripHTML(pooled.data, NOTICE, spare);
      w.WriteHeader(sw.status);
      assert [] + Stripped(pooled.data, NOTICE) == Stripped(pooled.data, NOTICE);
      w.Write(spare.data);
    }
  }

  /**
    The handler of Middleware, around a handler that makes the given calls. Up to the threshold it is out of the way:
    all chunks come through, and each call of WriteHeader sends a head with its code and the headers as the calls before
    it leave them. Above it, `pooled` and `spare` are the buffers of the pool, whatever they were last used for.
   */
  method Serve(activeRequests: int, threshold: int, w: ResponseWriter, calls: seq<Call>, sniff: Bytes -> Bytes,
               pooled: Buffer, spare: Buffer)
    requires pooled != spare
    modifies w, pooled, spare
    ensures activeRequests <= threshold ==>
      && w.contentType == TypeSet(old(w.contentType), calls)
      && w.contentLength == LengthSet(old(w.contentLength), calls)
      && w.body == old(w.body) + Written(calls)
      && |w.sent| == |old(w.sent)| + |HeadCalls(calls)| && old(w.sent) <= w.sent
      && forall n :: 0 <= n < |HeadCalls(calls)| ==>
           var p := HeadCalls(calls)[n];
           w.sent[|old(w.sent)| + n]
           == Head(calls[p].code, TypeSet(old(w.contentType), calls[..p]), LengthSet(old(w.contentLength), calls[..p]))
    ensures activeRequests > threshold ==>
      w.View() == Delivered(AfterCalls(Fresh(old(w.View())), calls, sniff), NOTICE)
  {
    hide Delivered, AfterCalls, NOTICE;
    if activeRequests <= threshold {
      ServeDirectly(w, calls);
    } else {
      ServeStripped(w, calls, sniff, pooled, spare);
    }
  }

  /** The banner has the length of the literal. */
  lemma BannerSize()
    ensures |NOTICE| == 291
  {
  }
}
