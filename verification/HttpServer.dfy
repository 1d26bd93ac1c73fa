/** Accumulation and dispatch of requests, after `onMessage` and `handleRequest` in
    src/http/http_server.cpp.

    Connections are numbered. What middleware and routes make of a request is an arbitrary
    function; what the server then does is an entry in the `handled` log. */
module HttpServing {
  import opened Text
  import opened HttpRequests

  /** How dispatching a request ends: with a response, an exception, or a stream that the handler
      goes on writing to. */
  datatype Reaction = Responds(status: int) | Throws | Streams

  /** Middleware and handlers may also change the request on their way. */
  datatype Dispatched = Dispatched(reaction: Reaction, request: Request)

  type Handlers = Request -> Dispatched

  /** What goes out on the connection: a response, after which it may be closed, or nothing from
      here when a handler streams. */
  datatype Effect = Sent(status: int, close: bool) | Streaming

  datatype Handled = Handled(conn: nat, parsed: Parsed, effect: Effect)

  function ErrorStatus(r: ParseResult): int {
    match r
    case MethodNotAllowed => 405
    case EntityTooLarge => 413
    case VersionNotSupported => 505
    case _ => 400
  }

  function EffectOf(w: Handlers, p: Parsed): Effect {
    if p.result != Ok then Sent(ErrorStatus(p.result), ShouldClose(p.request))
    else
      var d := w(p.request);
      match d.reaction
      case Responds(status) => Sent(status, ShouldClose(d.request))
      case Throws => Sent(500, ShouldClose(d.request))
      case Streams => Streaming
  }

  predicate IsClose(value: string) {
    |value| == 5 && forall i :: 0 <= i < 5 ==> Lower(value[i]) == "close"[i]
  }

  predicate ShouldClose(r: Request) {
    ("Connection" in r.headers && IsClose(r.headers["Connection"])) || r.version == "HTTP/1.0"
  }

  function Handle(w: Handlers, conn: nat, p: Parsed): Handled {
    Handled(conn, p, EffectOf(w, p))
  }

  datatype State = State(partial: map<nat, string>, handled: seq<Handled>)

  function Pending(partial: map<nat, string>, conn: nat): string {
    if conn in partial then partial[conn] else ""
  }

  /** What the parser says of everything received so far. */
  function Outcome(partial: map<nat, string>, conn: nat, data: string): Parsed {
    ParseOf(Pending(partial, conn) + data)
  }

  function Receive(w: Handlers, s: State, conn: nat, data: string): State {
    var acc := Pending(s.partial, conn) + data;
    if ParseOf(acc).result == Incomplete then State(s.partial[conn := acc], s.handled)
    else State(s.partial - {conn}, s.handled + [Handle(w, conn, ParseOf(acc))])
  }

  class HttpServer {
    const handlers: Handlers
    var partialRequests: map<nat, string>
    var handled: seq<Handled>
    var requestCount: nat

    function View(): State
      reads this
    {
      State(partialRequests, handled)
    }

    constructor (handlers: Handlers)
      ensures this.handlers == handlers && View() == State(map[], []) && requestCount == 0
    {
      this.handlers := handlers;
      partialRequests, handled, requestCount := map[], [], 0;
    }

    method OnMessage(conn: nat, data: string)
      modifies this
      ensures View() == Receive(handlers, old(View()), conn, data)
      ensures requestCount == old(requestCount) + 1
    {
      hide ParseOf;
      var acc := (if conn in partialRequests then partialRequests[conn] else "") + data;
      partialRequests := partialRequests[conn := acc];
      requestCount := requestCount + 1;
      HandleRequest(conn, acc);
    }

    method HandleRequest(conn: nat, raw: string)
      modifies this`partialRequests, this`handled
      ensures if ParseOf(raw).result == Incomplete then
                partialRequests == old(partialRequests) && handled == old(handled)
              else
                && partialRequests == old(partialRequests) - {conn}
                && handled == old(handled) + [Handle(handlers, conn, ParseOf(raw))]
    {
      hide ParseOf;
      var context := new HttpContext();
      var ok := context.ParseRequest(raw);
      var effect: Effect;
      var close := ShouldClose(context.request);
      if !ok {
        match context.result {
          case Incomplete => return;
          case MethodNotAllowed => effect := Sent(405, close);
          case EntityTooLarge => effect := Sent(413, close);
          case VersionNotSupported => effect := Sent(505, close);
          case _ => effect := Sent(400, close);
        }
      } else {
        var d := handlers(context.request);
        close := ShouldClose(d.request);
        match d.reaction {
          case Responds(status) => effect := Sent(status, close);
          case Throws => effect := Sent(500, close);
          case Streams => effect := Streaming;
        }
      }
      handled := handled + [Handled(conn, Parsed(context.result, context.request), effect)];
      partialRequests := partialRequests - {conn};
    }
  }

  // ---------- One connection ----------

  /** The parser's verdict after each segment, on a connection that has `acc` pending. */
  function Verdicts(acc: string, segments: seq<string>): seq<Parsed>
    decreases |segments|
  {
    if segments == [] then []
    else
      var now := acc + segments[0];
      var p := ParseOf(now);
      [p] + Verdicts(if p.result == Incomplete then now else "", segments[1..])
  }

  /** `raw` is one whole request, up to the last byte of its body. */
  ghost predicate WholeRequest(raw: string) {
    && ParseOf(raw).result == Ok
    && Find(raw, BLANK, 0) != -1
    && |raw| == Find(raw, BLANK, 0) + 4 + BodyLength(raw)
  }

  function BodyLength(raw: string): nat
    requires raw != ""
  {
    var n := HeadOf(raw).contentLength;
    if n.Some? && n.value > 0 then n.value else 0
  }

  /** Delivered in these segments, nothing is dispatched before the last one, and then exactly
      the request that the unsplit delivery gives. */
  ghost predicate DispatchedOnce(acc: string, segments: seq<string>, whole: Parsed)
    requires segments != []
  {
    var v := Verdicts(acc, segments);
    && |v| == |segments|
    && (forall i :: 0 <= i < |segments| - 1 ==> v[i].result == Incomplete)
    && v[|segments| - 1] == whole
  }

  /** Every proper prefix that contains the blank line is incomplete. */
  lemma PrefixIncomplete(prefix: string, more: string)
    requires WholeRequest(prefix + more) && Find(prefix, BLANK, 0) != -1 && more != ""
    ensures ParseOf(prefix).result == Incomplete
  {
    hide Find, HeadOf;
    HeadIsStable(prefix, more);
  }

  lemma {:induction false} SplitAfterHead(acc: string, segments: seq<string>)
    requires segments != [] && (forall i :: 0 <= i < |segments| ==> segments[i] != "")
    requires WholeRequest(acc + Concat(segments)) && Find(acc + segments[0], BLANK, 0) != -1
    ensures DispatchedOnce(acc, segments, ParseOf(acc + Concat(segments)))
    decreases |segments|
  {
    hide Find, ParseOf, WholeRequest, Verdicts;
    var now, rest := acc + segments[0], segments[1..];
    VerdictsStep(acc, segments);
    NoVerdicts("");
    NoVerdicts(now);
    Assoc(acc, segments[0], Concat(rest));
    if rest == [] {
      assert now + "" == now;
    } else {
      assert Concat(rest) != "" by { assert rest[0] != ""; }
      PrefixIncomplete(now, Concat(rest));
      HeadIsStable(now, rest[0]);
      SplitAfterHead(now, rest);
      assert Verdicts(acc, segments)[1..] == Verdicts(now, rest);
    }
  }

  lemma NoVerdicts(acc: string)
    ensures Verdicts(acc, []) == []
  {
  }

  lemma VerdictsStep(acc: string, segments: seq<string>)
    requires segments != []
    ensures var now := acc + segments[0]; var later := if ParseOf(now).result == Incomplete then now else "";
            Verdicts(acc, segments) == [ParseOf(now)] + Verdicts(later, segments[1..])
  {
    hide ParseOf;
  }

  /** Without a blank line there is never a verdict of `Incomplete`. */
  lemma IncompleteNeedsBlankLine(raw: string)
    ensures ParseOf(raw).result == Incomplete ==> Find(raw, BLANK, 0) != -1
  {
    hide HeadOf;
    if raw != "" {
      HeadNeverIncomplete(raw);
    }
  }

  lemma HeadNeverIncomplete(raw: string)
    requires raw != ""
    ensures HeadOf(raw).result != Incomplete
  {
    hide RequestLine;
    var l := GetLine(raw, '\n', 0);
    assert RequestLine(DropCR(l.text)).result != Incomplete by { RequestLineVerdict(DropCR(l.text)); }
    HeadersNeverIncomplete(raw, l.next, RequestLine(DropCR(l.text)));
  }

  lemma RequestLineVerdict(line: string)
    ensures RequestLine(line).result != Incomplete
  {
  }

  lemma {:induction false} HeadersNeverIncomplete(raw: string, pos: nat, s: Scan)
    requires pos <= |raw| && s.result != Incomplete
    ensures HeadersFrom(raw, pos, s).result != Incomplete
    decreases |raw| - pos
  {
    hide HeaderLine, FindChar;
    if pos < |raw| && s.result == Ok {
      var l := GetLine(raw, '\n', pos);
      var line := DropCR(l.text);
      if line != "" {
        var counted := s.(headerBytes := s.headerBytes + |line| + 2);
        HeaderLineVerdict(counted, line);
        HeadersNeverIncomplete(raw, l.next, HeaderLine(counted, line));
      }
    }
  }

  lemma HeaderLineVerdict(s: Scan, line: string)
    requires s.result != Incomplete
    ensures HeaderLine(s, line).result != Incomplete
  {
    hide TryParseContentLength, IsContentLength, FindChar;
  }

  /** Fragmentation independence, and its exact limit: a whole request delivered in two or more
      segments is dispatched once, at the end, as the unsplit request would be, if and only if
      the first segment contains the blank line that ends the headers. */
  lemma FragmentationIndependence(segments: seq<string>)
    requires |segments| >= 2 && (forall i :: 0 <= i < |segments| ==> segments[i] != "")
    requires WholeRequest(Concat(segments))
    ensures DispatchedOnce("", segments, ParseOf(Concat(segments))) <==> Find(segments[0], BLANK, 0) != -1
  {
    hide Find, ParseOf, WholeRequest;
    assert "" + segments[0] == segments[0] && "" + Concat(segments) == Concat(segments);
    if Find(segments[0], BLANK, 0) != -1 {
      SplitAfterHead("", segments);
    } else {
      IncompleteNeedsBlankLine(segments[0]);
      assert Verdicts("", segments)[0] == ParseOf(segments[0]);
    }
  }

  // ---------- Many connections ----------

  datatype Delivery = Delivery(conn: nat, data: string)

  function Run(w: Handlers, s: State, ds: seq<Delivery>): State
    decreases |ds|
  {
    if ds == [] then s else Run(w, Receive(w, s, ds[0].conn, ds[0].data), ds[1..])
  }

  function SegmentsOf(ds: seq<Delivery>, conn: nat): seq<string> {
    if ds == [] then []
    else (if ds[0].conn == conn then [ds[0].data] else []) + SegmentsOf(ds[1..], conn)
  }

  function HandledFor(h: seq<Handled>, conn: nat): seq<Handled> {
    if h == [] then []
    else
      var last := h[|h| - 1];
      HandledFor(h[..|h| - 1], conn) + if last.conn == conn then [last] else []
  }

  /** The verdicts that lead to a dispatch or an error response. */
  function Dispatches(w: Handlers, conn: nat, v: seq<Parsed>): seq<Handled> {
    if v == [] then []
    else (if v[0].result == Incomplete then [] else [Handle(w, conn, v[0])]) + Dispatches(w, conn, v[1..])
  }

  /** One delivery: its own connection moves on, every other one is left alone. */
  lemma OneDelivery(w: Handlers, s: State, d: Delivery, conn: nat)
    ensures var next, now := Receive(w, s, d.conn, d.data), Pending(s.partial, d.conn) + d.data;
            var own, p := d.conn == conn, ParseOf(now);
            && Pending(next.partial, conn)
               == (if !own then Pending(s.partial, conn) else if p.result == Incomplete then now else "")
            && HandledFor(next.handled, conn) == HandledFor(s.handled, conn) + OwnDispatch(w, own, conn, p)
  {
    hide ParseOf, Handle;
    var next, p := Receive(w, s, d.conn, d.data), ParseOf(Pending(s.partial, d.conn) + d.data);
    if p.result != Incomplete {
      HandleConn(w, d.conn, p);
      assert next.handled[..|next.handled| - 1] == s.handled;
    }
  }

  function OwnDispatch(w: Handlers, own: bool, conn: nat, p: Parsed): seq<Handled> {
    if own && p.result != Incomplete then [Handle(w, conn, p)] else []
  }

  /** However deliveries on other connections are interleaved, what a connection gets is
      determined by its own segments. */
  lemma {:induction false} ConnectionsAreIndependent(w: Handlers, s: State, ds: seq<Delivery>, conn: nat)
    ensures HandledFor(Run(w, s, ds).handled, conn)
         == HandledFor(s.handled, conn) + Dispatches(w, conn, Verdicts(Pending(s.partial, conn), SegmentsOf(ds, conn)))
    decreases |ds|
  {
    hide ParseOf, Handle, Verdicts, Receive, HandledFor, Pending;
    if ds == [] {
      NoVerdicts(Pending(s.partial, conn));
    } else {
      var d := ds[0];
      ConnectionsAreIndependent(w, Receive(w, s, d.conn, d.data), ds[1..], conn);
      OneDelivery(w, s, d, conn);
      if d.conn == conn {
        var own := SegmentsOf(ds, conn);
        assert own[0] == d.data && own[1..] == SegmentsOf(ds[1..], conn);
        VerdictsStep(Pending(s.partial, conn), own);
        var v := Verdicts(Pending(s.partial, conn), own);
        assert Dispatches(w, conn, v) == OwnDispatch(w, true, conn, v[0]) + Dispatches(w, conn, v[1..]);
      } else {
        assert SegmentsOf(ds, conn) == SegmentsOf(ds[1..], conn);
        assert HandledFor(s.handled, conn) + [] == HandledFor(s.handled, conn);
      }
    }
  }

  lemma HandleConn(w: Handlers, conn: nat, p: Parsed)
    ensures Handle(w, conn, p).conn == conn
  {
  }

  lemma {:induction false} OneDispatch(w: Handlers, conn: nat, v: seq<Parsed>)
    requires v != [] && (forall i :: 0 <= i < |v| - 1 ==> v[i].result == Incomplete)
    requires v[|v| - 1].result != Incomplete
    ensures Dispatches(w, conn, v) == [Handle(w, conn, v[|v| - 1])]
  {
    hide Handle;
    if |v| > 1 {
      OneDispatch(w, conn, v[1..]);
    } else {
      assert v[1..] == [];
    }
  }

  /** On a busy server: a whole request whose segments, the first holding the blank line, arrive
      among any other traffic is handled exactly once, as if it had arrived in one piece. */
  lemma FragmentedRequestHandledOnce(w: Handlers, s: State, ds: seq<Delivery>, conn: nat)
    requires conn !in s.partial
    requires var segments := SegmentsOf(ds, conn);
             && segments != [] && (forall i :: 0 <= i < |segments| ==> segments[i] != "")
             && WholeRequest(Concat(segments)) && Find(segments[0], BLANK, 0) != -1
    ensures HandledFor(Run(w, s, ds).handled, conn)
         == HandledFor(s.handled, conn) + [Handle(w, conn, ParseOf(Concat(SegmentsOf(ds, conn))))]
  {
    hide Find, ParseOf, Handle, Verdicts;
    var segments := SegmentsOf(ds, conn);
    assert "" + segments[0] == segments[0] && "" + Concat(segments) == Concat(segments);
    SplitAfterHead("", segments);
    ConnectionsAreIndependent(w, s, ds, conn);
    OneDispatch(w, conn, Verdicts("", segments));
  }
}
