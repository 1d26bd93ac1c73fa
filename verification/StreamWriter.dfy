/** The chunked / server-sent-events writer of src/http/stream_writer.cpp. */
module StreamWriting {
  import opened Text
  import opened Wrappers
  import opened ChunkedCoding
  import opened EventStreams

  /** A TCP connection: `send` is dropped unless connected; `shutdown` ends `connected()`. */
  class Connection {
    var connected: bool
    var sent: string

    constructor ()
      ensures connected && sent == ""
    {
      connected, sent := true, "";
    }

    method Send(data: string)
      modifies this`sent
      ensures sent == if connected then old(sent) + data else old(sent)
    {
      if connected {
        sent := sent + data;
      }
    }

    method Shutdown()
      modifies this`connected
      ensures !connected
    {
      connected := false;
    }
  }

  datatype Head = Head(statusCode: int, statusMessage: string, contentType: string)

  /** What the writer's connection has carried, whether it is still open, and whether the
      header block was sent. */
  datatype Wire = Wire(sent: string, open: bool, headersSent: bool)

  /** One thing that happens to a stream; `Hangup` is the peer closing the connection. */
  datatype Call = Chunk(data: string) | Event(event: string, data: string, id: string) | End | Hangup

  function HeadLines(h: Head): seq<string> {
    ["HTTP/1.1 " + Decimal(h.statusCode) + " " + h.statusMessage,
     "Content-Type: " + h.contentType,
     "Transfer-Encoding: chunked",
     "Connection: close",
     "Cache-Control: no-cache"]
  }

  function HeaderBlock(h: Head): string {
    Block(HeadLines(h)) + CRLF
  }

  function DataLine(piece: string): string {
    "data: " + piece + "\n"
  }

  /** `data` split at line feeds, each piece prefixed; a final line feed opens no piece. */
  function DataLines(data: string): string
    decreases |data|
  {
    if data == "" then ""
    else
      var nl := FindChar(data, '\n', 0);
      if nl == -1 then DataLine(data) else DataLine(data[..nl]) + DataLines(data[nl + 1..])
  }

  lemma NoDataLines(data: string)
    ensures DataLines(data[|data|..]) == ""
  {
  }

  lemma DataLinesStep(data: string)
    requires data != ""
    ensures var nl := FindChar(data, '\n', 0);
            DataLines(data) == if nl == -1 then DataLine(data) else DataLine(data[..nl]) + DataLines(data[nl + 1..])
  {
    hide DataLine, FindChar;
  }

  lemma DataLinesFrom(data: string, pos: nat, next: int)
    requires pos < |data| && next == FindChar(data, '\n', pos)
    ensures next == -1 ==> DataLines(data[pos..]) == DataLine(data[pos..])
    ensures next != -1 ==> DataLines(data[pos..]) == DataLine(data[pos..next]) + DataLines(data[next + 1..])
  {
    hide DataLine, DataLines, FindChar;
    FindCharFrom(data, '\n', pos);
    var left := data[pos..];
    DataLinesStep(left);
    if next != -1 {
      assert left[..next - pos] == data[pos..next] && left[next - pos + 1..] == data[next + 1..];
    }
  }

  function EventLine(event: string): string {
    if event == "" then "" else "event: " + event + "\n"
  }

  function IdLine(id: string): string {
    if id == "" then "" else "id: " + id + "\n"
  }

  function Frame(event: string, data: string, id: string): string {
    EventLine(event) + IdLine(id) + DataLines(data) + "\n"
  }

  /** The first bytes put on the wire are preceded by the header block. */
  function Put(header: string, w: Wire, bytes: string): Wire {
    w.(sent := w.sent + (if w.headersSent then "" else header) + bytes, headersSent := true)
  }

  function Apply(header: string, w: Wire, c: Call): Wire {
    if !w.open then w
    else if c.Hangup? then w.(open := false)
    else if c.End? then Put(header, w, LAST_CHUNK).(open := false)
    else Put(header, w, ChunkOf(Payload(c)))
  }

  /** What one write puts into its chunk. */
  function Payload(c: Call): string
    requires c.Chunk? || c.Event?
  {
    if c.Chunk? then c.data else Frame(c.event, c.data, c.id)
  }

  class StreamWriter {
    const conn: Connection?
    const head: Head
    var headersSent: bool

    function View(): Wire
      reads this, conn
    {
      if conn == null then Wire("", false, headersSent) else Wire(conn.sent, conn.connected, headersSent)
    }

    constructor (conn: Connection?, statusCode: int := 200, statusMessage: string := "OK",
                 contentType: string := "text/event-stream")
      ensures this.conn == conn && head == Head(statusCode, statusMessage, contentType)
      ensures View() == if conn == null then Wire("", false, false) else Wire(conn.sent, conn.connected, false)
    {
      this.conn, head, headersSent := conn, Head(statusCode, statusMessage, contentType), false;
    }

    method WriteChunk(data: string)
      modifies this, conn
      ensures View() == Apply(HeaderBlock(head), old(View()), Chunk(data))
    {
      if conn == null || !conn.connected {
        return;
      }
      SendChunk(data);
    }

    method WriteSSE(event: string, data: string, id: string)
      modifies this, conn
      ensures View() == Apply(HeaderBlock(head), old(View()), Event(event, data, id))
    {
      hide Frame, HeaderBlock, ChunkOf;
      if conn == null || !conn.connected {
        return;
      }
      var frame := BuildFrame(event, data, id);
      SendChunk(frame);
    }

    /** The part that both kinds of write share. */
    method SendChunk(payload: string)
      requires conn != null && conn.connected
      modifies this`headersSent, conn`sent
      ensures View() == Put(HeaderBlock(head), old(View()), ChunkOf(payload))
    {
      hide HeaderBlock, Hex;
      ghost var before := conn.sent;
      if !headersSent {
        SendHeaders();
      }
      ghost var headed := conn.sent;
      conn.Send(Hex(|payload|) + CRLF + payload + CRLF);
      assert before + "" == before;
      assert conn.sent == headed + ChunkOf(payload);
    }

    static method BuildFrame(event: string, data: string, id: string) returns (frame: string)
      ensures frame == Frame(event, data, id)
    {
      frame := "";
      if event != "" {
        frame := frame + ("event: " + event + "\n");
      }
      if id != "" {
        frame := frame + ("id: " + id + "\n");
      }
      assert frame == EventLine(event) + IdLine(id);
      frame := AddDataLines(frame, data);
      frame := frame + "\n";
    }

    static method AddDataLines(fields: string, data: string) returns (frame: string)
      ensures frame == fields + DataLines(data)
    {
      hide DataLine, DataLines;
      frame := fields;
      var pos := 0;
      assert data[0..] == data;
      while pos < |data|
        invariant 0 <= pos <= |data|
        invariant fields + DataLines(data) == frame + DataLines(data[pos..])
      {
        var next := FindChar(data, '\n', pos);
        DataLinesFrom(data, pos, next);
        if next == -1 {
          frame := frame + DataLine(data[pos..]);
          return;
        }
        Assoc(frame, DataLine(data[pos..next]), DataLines(data[next + 1..]));
        frame := frame + DataLine(data[pos..next]);
        pos := next + 1;
      }
      NoDataLines(data);
    }

    method End()
      modifies this, conn
      ensures View() == Apply(HeaderBlock(head), old(View()), Call.End)
    {
      if conn == null || !conn.connected {
        return;
      }
      if !headersSent {
        SendHeaders();
      }
      conn.Send("0\r\n\r\n");
      conn.Shutdown();
    }

    method SendHeaders()
      requires conn != null && conn.connected
      modifies this`headersSent, conn`sent
      ensures headersSent && conn.sent == old(conn.sent) + HeaderBlock(head)
    {
      ghost var h := HeadLines(head);
      var lines := "HTTP/1.1 " + Decimal(head.statusCode) + " " + head.statusMessage + "\r\n";
      assert lines == Block([]) + h[0] + CRLF;
      lines := lines + ("Content-Type: " + head.contentType + "\r\n");
      lines := lines + "Transfer-Encoding: chunked\r\n";
      lines := lines + "Connection: close\r\n";
      lines := lines + "Cache-Control: no-cache\r\n";
      BlockOfFive(h[0], h[1], h[2], h[3], h[4]);
      assert lines == Block(h);
      lines := lines + "\r\n";
      conn.Send(lines);
      headersSent := true;
    }
  }

  lemma BlockOfFive(a: string, b: string, c: string, d: string, e: string)
    ensures Block([a, b, c, d, e]) == a + CRLF + (b + CRLF) + (c + CRLF) + (d + CRLF) + (e + CRLF)
  {
    assert [a, b, c, d, e][1..] == [b, c, d, e] && [b, c, d, e][1..] == [c, d, e];
    assert [c, d, e][1..] == [d, e] && [d, e][1..] == [e] && [e][1..] == [];
    assert Block([e]) == e + CRLF + Block([]) == e + CRLF;
    assert Block([d, e]) == d + CRLF + (e + CRLF);
    assert Block([c, d, e]) == c + CRLF + Block([d, e]);
    assert Block([b, c, d, e]) == b + CRLF + Block([c, d, e]);
  }

  // ---------- Whole streams ----------

  function Run(header: string, w: Wire, calls: seq<Call>): Wire
    decreases |calls|
  {
    if calls == [] then w else Run(header, Apply(header, w, calls[0]), calls[1..])
  }

  const FRESH := Wire("", true, false)

  predicate Stops(c: Call) {
    c.End? || c.Hangup?
  }

  /** The chunks a run asks for, up to its end. */
  function Payloads(calls: seq<Call>): seq<string> {
    if calls == [] || Stops(calls[0]) then [] else [Payload(calls[0])] + Payloads(calls[1..])
  }

  /** Whether the run was ended by the writer, not cut off by the peer or still going on. */
  predicate Ended(calls: seq<Call>) {
    calls != [] && !calls[0].Hangup? && (calls[0].End? || Ended(calls[1..]))
  }

  /** A chunked body. */
  function Chunked(payloads: seq<string>, last: bool): string {
    if payloads == [] then if last then LAST_CHUNK else ""
    else ChunkOf(payloads[0]) + Chunked(payloads[1..], last)
  }

  lemma {:induction false} ClosedStaysClosed(header: string, w: Wire, calls: seq<Call>)
    requires !w.open
    ensures Run(header, w, calls) == w
  {
    if calls != [] { ClosedStaysClosed(header, w, calls[1..]); }
  }

  lemma {:induction false} BodySent(header: string, w: Wire, calls: seq<Call>)
    requires w.open && w.headersSent
    ensures Run(header, w, calls).sent == w.sent + Chunked(Payloads(calls), Ended(calls))
    decreases |calls|
  {
    if calls != [] {
      hide Payload, ChunkOf;
      var next := Apply(header, w, calls[0]);
      if Stops(calls[0]) {
        ClosedStaysClosed(header, next, calls[1..]);
      } else {
        BodySent(header, next, calls[1..]);
        assert w.sent + "" == w.sent;
        Assoc(w.sent, ChunkOf(Payload(calls[0])), Chunked(Payloads(calls[1..]), Ended(calls[1..])));
      }
    }
  }

  /** The bytes sent are one header block, then the body; nothing at all when the peer is gone
      before the first write. */
  lemma WireFormat(header: string, calls: seq<Call>)
    ensures Run(header, FRESH, calls).sent
            == if calls == [] || calls[0].Hangup? then ""
               else header + Chunked(Payloads(calls), Ended(calls))
  {
    if calls != [] {
      hide Payload, ChunkOf;
      var next := Apply(header, FRESH, calls[0]);
      if Stops(calls[0]) {
        ClosedStaysClosed(header, next, calls[1..]);
      } else {
        BodySent(header, next, calls[1..]);
        assert "" + header == header;
        Assoc(header, ChunkOf(Payload(calls[0])), Chunked(Payloads(calls[1..]), Ended(calls[1..])));
      }
    }
  }

  lemma {:induction false} ChunksOnceReceived(payloads: seq<string>, last: bool)
    ensures var r := Receive(Chunked(payloads, last));
            if "" in payloads then |r.chunks| < |payloads| else r == Received(payloads, last, "")
  {
    hide ChunkOf, Receive;
    if payloads == [] {
      NoChunks(last);
    } else {
      ChunkReceived(payloads[0], Chunked(payloads[1..], last));
      ChunksOnceReceived(payloads[1..], last);
    }
  }

  lemma NoChunks(last: bool)
    ensures Receive(Chunked([], last)) == Received([], last, "")
  {
    hide Receive;
    LastReceived("");
    NothingReceived();
    assert LAST_CHUNK + "" == LAST_CHUNK;
  }

  /** A recipient of the body gets exactly the chunks written, sees the last chunk exactly when
      the writer ended the stream, and has nothing left over -- if and only if no empty chunk
      was written: an empty `WriteChunk` is taken for the last chunk. */
  lemma ChunksReceived(calls: seq<Call>)
    ensures Receive(Chunked(Payloads(calls), Ended(calls))) == Received(Payloads(calls), Ended(calls), "")
       <==> "" !in Payloads(calls)
  {
    ChunksOnceReceived(Payloads(calls), Ended(calls));
  }

  // ---------- Events, end to end ----------

  /** The data without its final line feed, if it has one. */
  function Chomp(data: string): string {
    if data != "" && data[|data| - 1] == '\n' then data[..|data| - 1] else data
  }

  function ExpectedOf(event: string, data: string, lastId: string): seq<EventStreams.Message> {
    if data == "" then []
    else [EventStreams.Message(if event == "" then "message" else event, Chomp(data), lastId)]
  }

  /** The messages a run of events means to deliver. */
  function Expected(calls: seq<Call>, lastId: string): seq<EventStreams.Message> {
    if calls == [] then []
    else match calls[0]
      case Chunk(_) => Expected(calls[1..], lastId)
      case Event(event, data, id) =>
        var now := if id == "" then lastId else id;
        ExpectedOf(event, data, now) + Expected(calls[1..], now)
      case End => []
      case Hangup => []
  }

  /** A response as a client takes it apart: the lines of its head, and what follows the blank line. */
  datatype Response = Response(lines: seq<string>, body: string)

  function ReadHead(s: string): Option<Response>
    decreases |s|
  {
    var end := Find(s, CRLF, 0);
    if end == -1 then None
    else if end == 0 then Some(Response([], s[2..]))
    else match ReadHead(s[end + 2..])
      case None => None
      case Some(r) => Some(Response([s[..end]] + r.lines, r.body))
  }

  function FieldNamed(lines: seq<string>, name: string): Option<string> {
    if lines == [] then None
    else if name + ": " <= lines[0] then Some(lines[0][|name| + 2..])
    else FieldNamed(lines[1..], name)
  }

  /** What a client makes of the bytes: it reads the head, decodes the chunks if the head says that
      there are chunks, and parses the event stream. */
  function ClientMessages(sent: string): seq<EventStreams.Message> {
    match ReadHead(sent)
    case None => []
    case Some(r) =>
      if FieldNamed(r.lines, "Transfer-Encoding") == Some("chunked") then Parse(Concat(Receive(r.body).chunks))
      else Parse(r.body)
  }

  ghost predicate CleanEvent(c: Call) {
    c.Event? ==> Free(c.data, '\r') && OneLine(c.event) && CleanId(c.id)
  }

  /** The data buffer after the data lines of one frame. */
  function Taken(data: string): string {
    if data == "" then "" else Chomp(data) + "\n"
  }

  lemma TakenFirstLine(data: string, nl: nat)
    requires nl < |data| && data[nl] == '\n'
    ensures Taken(data) == data[..nl] + "\n" + Taken(data[nl + 1..])
  {
    var tail := data[nl + 1..];
    if tail == "" {
      assert Chomp(data) == data[..nl];
    } else {
      assert data == data[..nl] + "\n" + tail;
      assert Chomp(data) == data[..nl] + "\n" + Chomp(tail);
    }
  }

  lemma {:induction false} DataRead(b: Buffers, data: string, rest: string)
    requires Free(data, '\r')
    ensures Messages(b, DataLines(data) + rest) == Messages(b.(data := b.data + Taken(data)), rest)
    decreases |data|
  {
    hide Messages, DataLine, Taken, FindChar;
    if data == "" {
      assert DataLines(data) + rest == rest;
      assert b.data + Taken("") == b.data by { NothingTaken(b.data); }
    } else {
      var nl := FindChar(data, '\n', 0);
      if nl == -1 {
        DataLineRead(b, data, rest);
        ChompedLine(b.data, data);
      } else {
        var line, tail := data[..nl], data[nl + 1..];
        Assoc(DataLine(line), DataLines(tail), rest);
        DataLineRead(b, line, DataLines(tail) + rest);
        DataRead(b.(data := b.data + (line + "\n")), tail, rest);
        TakenFirstLine(data, nl);
        Assoc(b.data, line + "\n", Taken(tail));
      }
    }
  }

  lemma NothingTaken(s: string)
    ensures s + Taken("") == s
  {
  }

  lemma ChompedLine(s: string, data: string)
    requires Free(data, '\n') && data != ""
    ensures s + (data + "\n") == s + Taken(data)
  {
  }

  lemma DataLineRead(b: Buffers, line: string, after: string)
    requires OneLine(line)
    ensures Messages(b, DataLine(line) + after) == Messages(b.(data := b.data + (line + "\n")), after)
  {
    hide Messages;
    assert DataLine(line) + after == "data" + ": " + line + "\n" + after;
    Assoc(b.data, line, "\n");
    FieldRead(b, "data", line, after);
  }

  /** The buffers once the fields of one frame were read. */
  function FrameBuffers(b: Buffers, event: string, data: string, id: string): Buffers {
    Buffers(b.data + Taken(data), if event == "" then b.eventType else event, if id == "" then b.lastEventId else id)
  }

  lemma FieldsRead(b: Buffers, event: string, id: string, rest: string)
    requires OneLine(event) && CleanId(id)
    ensures Messages(b, EventLine(event) + (IdLine(id) + rest))
         == Messages(b.(eventType := if event == "" then b.eventType else event,
                        lastEventId := if id == "" then b.lastEventId else id), rest)
  {
    hide Messages, EventLine, IdLine, OneLine, CleanId;
    EventLineRead(b, event, IdLine(id) + rest);
    IdLineRead(b.(eventType := if event == "" then b.eventType else event), id, rest);
  }

  lemma EventLineRead(b: Buffers, event: string, rest: string)
    requires OneLine(event)
    ensures Messages(b, EventLine(event) + rest)
         == Messages(b.(eventType := if event == "" then b.eventType else event), rest)
  {
    hide Messages;
    if event == "" {
      assert EventLine(event) + rest == rest;
    } else {
      assert EventLine(event) + rest == "event" + ": " + event + "\n" + rest;
      FieldRead(b, "event", event, rest);
    }
  }

  lemma IdLineRead(b: Buffers, id: string, rest: string)
    requires CleanId(id)
    ensures Messages(b, IdLine(id) + rest) == Messages(b.(lastEventId := if id == "" then b.lastEventId else id), rest)
  {
    hide Messages;
    if id == "" {
      assert IdLine(id) + rest == rest;
    } else {
      assert IdLine(id) + rest == "id" + ": " + id + "\n" + rest;
      FieldRead(b, "id", id, rest);
    }
  }

  /** A clean frame is read as its one event, and leaves only the last event ID behind. */
  lemma FrameRead(lastId: string, event: string, data: string, id: string, rest: string)
    requires Free(data, '\r') && OneLine(event) && CleanId(id)
    ensures var b := FrameBuffers(START.(lastEventId := lastId), event, data, id);
            Messages(START.(lastEventId := lastId), Frame(event, data, id) + rest)
            == Dispatched(b) + Messages(START.(lastEventId := b.lastEventId), rest)
  {
    hide Messages, EventLine, IdLine, DataLines, Dispatched, Taken;
    var b0 := START.(lastEventId := lastId);
    var after := DataLines(data) + ("\n" + rest);
    assert Frame(event, data, id) + rest == EventLine(event) + (IdLine(id) + after);
    FieldsRead(b0, event, id, after);
    var b1 := b0.(eventType := if event == "" then "" else event,
                  lastEventId := if id == "" then lastId else id);
    DataRead(b1, data, "\n" + rest);
    BlankLineRead(b1.(data := b1.data + Taken(data)), rest);
  }

  lemma FrameDispatches(lastId: string, event: string, data: string, id: string)
    ensures Dispatched(FrameBuffers(START.(lastEventId := lastId), event, data, id))
         == ExpectedOf(event, data, if id == "" then lastId else id)
  {
    if data != "" {
      assert "" + Taken(data) == Chomp(data) + "\n";
    }
  }

  // ---------- Each event on its own ----------

  /** The last event ID a client holds after an event, having held `heard` before. */
  function HeardId(heard: string, c: Call): string
    requires c.Event?
  {
    After(START.(lastEventId := heard), Frame(c.event, c.data, c.id)).lastEventId
  }

  /** The messages an event makes a client dispatch. */
  function FrameMessages(heard: string, c: Call): seq<EventStreams.Message>
    requires c.Event?
  {
    Messages(START.(lastEventId := heard), Frame(c.event, c.data, c.id))
  }

  /** A frame ends in a blank line, so nothing but the last event ID outlives it. */
  lemma FrameSplits(heard: string, c: Call, rest: string)
    requires c.Event?
    ensures Messages(START.(lastEventId := heard), Frame(c.event, c.data, c.id) + rest)
         == FrameMessages(heard, c) + Messages(START.(lastEventId := HeardId(heard, c)), rest)
  {
    hide Messages, EventLine, IdLine, DataLines;
    var b, fields := START.(lastEventId := heard), EventLine(c.event) + IdLine(c.id) + DataLines(c.data);
    FieldLinesAreWhole(c.event, c.data, c.id);
    ReadAlong(b, fields, "\n");
    BlankLineAfter(After(b, fields));
    ReadAlong(b, fields + "\n", rest);
  }

  lemma FieldLinesAreWhole(event: string, data: string, id: string)
    ensures WholeLines(EventLine(event) + IdLine(id)) && WholeLines(EventLine(event) + IdLine(id) + DataLines(data))
  {
    hide DataLines;
    DataLinesAreWhole(data);
  }

  lemma {:induction false} DataLinesAreWhole(data: string)
    ensures WholeLines(DataLines(data))
    decreases |data|
  {
    hide FindChar;
    if data != "" {
      var nl := FindChar(data, '\n', 0);
      if nl != -1 { DataLinesAreWhole(data[nl + 1..]); }
    }
  }

  /** A clean event does what it says. */
  lemma CleanFrame(heard: string, c: Call)
    requires c.Event? && CleanEvent(c)
    ensures var now := if c.id == "" then heard else c.id;
            HeardId(heard, c) == now && FrameMessages(heard, c) == ExpectedOf(c.event, c.data, now)
  {
    hide Messages, Frame, HeardId, FrameMessages, Dispatched, FrameBuffers;
    // Another event behind it shows which ID it leaves.
    var now, probe := if c.id == "" then heard else c.id, Frame("", "x", "");
    FrameSplits(heard, c, probe);
    FrameRead(heard, c.event, c.data, c.id, probe);
    FrameDispatches(heard, c.event, c.data, c.id);
    LastIdAfter(START.(lastEventId := heard), c.event, c.data, c.id);
    ProbeRead(HeardId(heard, c));
    ProbeRead(now);
    LastsAgree(FrameMessages(heard, c), EventStreams.Message("message", "x", HeardId(heard, c)),
               ExpectedOf(c.event, c.data, now), EventStreams.Message("message", "x", now));
  }

  lemma LastsAgree<T>(a: seq<T>, x: T, b: seq<T>, y: T)
    requires a + [x] == b + [y]
    ensures a == b && x == y
  {
    var s := a + [x];
    assert s[|a|] == x && s[|b|] == y;
    assert s[..|a|] == a && s[..|b|] == b;
  }

  lemma ProbeRead(id: string)
    ensures Messages(START.(lastEventId := id), Frame("", "x", "")) == [EventStreams.Message("message", "x", id)]
  {
    hide Messages, Frame;
    FrameRead(id, "", "x", "", "");
    FrameDispatches(id, "", "x", "");
    assert Frame("", "x", "") + "" == Frame("", "x", "");
    NothingToRead(START.(lastEventId := id));
  }

  lemma NeverSilent(heard: string, c: Call)
    requires c.Event? && c.data != ""
    ensures FrameMessages(heard, c) != []
  {
    hide Messages, After, EventLine, IdLine, DataLines, WholeLines, EndsBlank;
    var b, fields, s := START.(lastEventId := heard), EventLine(c.event) + IdLine(c.id), DataLines(c.data) + "\n";
    FieldLinesAreWhole(c.event, c.data, c.id);
    DataLinesShape(c.data);
    ReadAlong(b, fields, s);
    Assoc(fields, DataLines(c.data), "\n");
    DataFieldRead(After(b, fields), s);
  }

  /** An event without data is silent exactly when none of the lines of its frame is a data field:
      its name and id must not smuggle one in. */
  predicate Silent(c: Call)
    requires c.Event?
  {
    forall line <- FrameLines(c) :: !IsDataField(line)
  }

  function FrameLines(c: Call): seq<string>
    requires c.Event?
  {
    Lines(Frame(c.event, c.data, c.id))
  }

  lemma SilentExactlyWhen(heard: string, c: Call)
    requires c.Event? && c.data == ""
    ensures FrameMessages(heard, c) == [] <==> Silent(c)
  {
    hide Messages, EventLine, IdLine, WholeLines, Lines;
    FieldLinesAreWhole(c.event, c.data, c.id);
    var fields := EventLine(c.event) + IdLine(c.id) + DataLines(c.data);
    BlankLineEnds(fields);
    SilentReading(START.(lastEventId := heard), fields + "\n");
  }

  lemma BlankLineEnds(fields: string)
    requires WholeLines(fields)
    ensures EndsBlank(fields + "\n")
  {
    var s := fields + "\n";
    if fields != "" { assert s[|s| - 2..] == [s[|s| - 2], s[|s| - 1]]; }
  }

  lemma HeardIdIs(heard: string, c: Call)
    requires c.Event?
    ensures HeardId(heard, c) == IdAfter(FrameLines(c), heard)
  {
    hide After, Frame, Lines;
    IdAfterLines(START.(lastEventId := heard), Frame(c.event, c.data, c.id));
  }

  lemma DataLinesShape(data: string)
    requires data != ""
    ensures "data: " <= DataLines(data) + "\n" && EndsBlank(DataLines(data) + "\n")
  {
    hide DataLines;
    DataLinesAreWhole(data);
    DataLinesStart(data);
    BlankLineEnds(DataLines(data));
  }

  // ---------- Runs of events ----------

  /** Whether all the events of a run arrive, for a client that holds the last event ID `heard`
      where `meant` was meant: an event with data must be clean and not rely on a wrong ID; one
      without must be silent, and its lines settle which ID the client holds next. */
  ghost predicate Arrives(calls: seq<Call>, heard: string, meant: string)
    decreases |calls|
  {
    calls == [] || Stops(calls[0]) || calls[0].Chunk? ||
    var c, rest := calls[0], calls[1..];
    var now := if c.id == "" then meant else c.id;
    if c.data != "" then CleanEvent(c) && (c.id == "" ==> heard == meant) && Arrives(rest, now, now)
    else Silent(c) && Arrives(rest, IdAfter(FrameLines(c), heard), now)
  }

  lemma PayloadsStep(calls: seq<Call>)
    requires calls != [] && calls[0].Event?
    ensures var c := calls[0];
            Concat(Payloads(calls)) == Frame(c.event, c.data, c.id) + Concat(Payloads(calls[1..]))
  {
    hide Frame;
    assert Payloads(calls)[1..] == Payloads(calls[1..]);
  }

  lemma {:induction false} AtLeastExpected(calls: seq<Call>, heard: string, meant: string)
    requires forall c <- calls :: !c.Chunk?
    ensures |Messages(START.(lastEventId := heard), Concat(Payloads(calls)))| >= |Expected(calls, meant)|
    decreases |calls|
  {
    hide Messages, Frame, HeardId, FrameMessages, Payloads, Concat;
    if calls == [] || Stops(calls[0]) {
      NothingExpected(calls, meant);
    } else {
      var c := calls[0];
      PayloadsStep(calls);
      FrameSplits(heard, c, Concat(Payloads(calls[1..])));
      AtLeastExpected(calls[1..], HeardId(heard, c), if c.id == "" then meant else c.id);
      if c.data != "" { NeverSilent(heard, c); }
    }
  }

  lemma NothingExpected(calls: seq<Call>, meant: string)
    requires calls == [] || Stops(calls[0])
    ensures Expected(calls, meant) == [] && Concat(Payloads(calls)) == ""
  {
  }

  lemma {:induction false} EventsRead(calls: seq<Call>, heard: string, meant: string)
    requires (forall c <- calls :: !c.Chunk?) && CleanId(heard)
    ensures Messages(START.(lastEventId := heard), Concat(Payloads(calls))) == Expected(calls, meant)
       <==> Arrives(calls, heard, meant)
    decreases |calls|
  {
    hide Messages, Frame, HeardId, FrameMessages, FrameLines, Silent, Payloads, Concat, ExpectedOf, CleanId, CleanEvent;
    if calls == [] || Stops(calls[0]) {
      NothingExpected(calls, meant);
      NothingToRead(START.(lastEventId := heard));
    } else {
      var c, rest := calls[0], calls[1..];
      var now := if c.id == "" then meant else c.id;
      var heard' := HeardId(heard, c);
      PayloadsStep(calls);
      FrameSplits(heard, c, Concat(Payloads(rest)));
      HeardIdClean(heard, c);
      HeardIdIs(heard, c);
      if c.data == "" { SilentExactlyWhen(heard, c); }
      EventsRead(rest, heard', now);
      AtLeastExpected(rest, heard', now);
      FirstEvent(c, heard, meant);
      Split(FrameMessages(heard, c), Messages(START.(lastEventId := heard'), Concat(Payloads(rest))),
            ExpectedOf(c.event, c.data, now), Expected(rest, now));
    }
  }

  /** Two lists whose first parts are no shorter and whose second parts are no shorter than those
      of two others are the same only part by part. */
  lemma Split<T>(a: seq<T>, b: seq<T>, c: seq<T>, d: seq<T>)
    requires |a| >= |c| && |b| >= |d|
    ensures a + b == c + d <==> a == c && b == d
  {
    if a + b == c + d {
      assert |a| == |c| && |b| == |d|;
      assert (a + b)[..|a|] == a && (c + d)[..|c|] == c;
      assert (a + b)[|a|..] == b && (c + d)[|c|..] == d;
    }
  }

  lemma HeardIdClean(heard: string, c: Call)
    requires c.Event? && CleanId(heard)
    ensures CleanId(HeardId(heard, c))
    ensures forall m <- FrameMessages(heard, c) :: CleanMessage(m)
  {
    hide Messages, Frame;
    OnlyCleanMessages(START.(lastEventId := heard), Frame(c.event, c.data, c.id));
  }

  /** The first event alone: what it must be like to yield what is expected of it. */
  lemma FirstEvent(c: Call, heard: string, meant: string)
    requires c.Event? && CleanId(heard)
    ensures var now := if c.id == "" then meant else c.id;
            && |FrameMessages(heard, c)| >= |ExpectedOf(c.event, c.data, now)|
            && (c.data == "" ==> ExpectedOf(c.event, c.data, now) == [])
            && (c.data != "" ==>
                  (FrameMessages(heard, c) == ExpectedOf(c.event, c.data, now)
                   <==> CleanEvent(c) && (c.id == "" ==> heard == meant)))
            && (c.data != "" && CleanEvent(c) && (c.id == "" ==> heard == meant) ==> HeardId(heard, c) == now)
  {
    hide FrameMessages, HeardId, CleanId, CleanEvent, CleanMessage;
    var now := if c.id == "" then meant else c.id;
    if c.data != "" {
      NeverSilent(heard, c);
      HeardIdClean(heard, c);
      if CleanEvent(c) {
        CleanFrame(heard, c);
      } else if FrameMessages(heard, c) == ExpectedOf(c.event, c.data, now) {
        CleanExpectedOf(c, now);
      }
    }
  }

  lemma NothingToRead(b: Buffers)
    ensures Messages(b, "") == []
  {
  }

  lemma LastIdAfter(b: Buffers, event: string, data: string, id: string)
    ensures FrameBuffers(b, event, data, id).lastEventId == if id == "" then b.lastEventId else id
  {
  }

  // ---------- Skipping the header block ----------

  lemma HeadLinesAreLines(h: Head)
    requires OneLine(h.statusMessage) && OneLine(h.contentType)
    ensures HeadLines(h) != [] && HeaderLines(HeadLines(h))
  {
    hide Decimal, OneLine;
    var code := Decimal(h.statusCode);
    OneLinePieces();
    OneLineAppend("HTTP/1.1 ", code);
    OneLineAppend("HTTP/1.1 " + code, " ");
    OneLineAppend("HTTP/1.1 " + code + " ", h.statusMessage);
    OneLineAppend("Content-Type: ", h.contentType);
  }

  lemma OneLinePieces()
    ensures OneLine("HTTP/1.1 ") && OneLine(" ") && OneLine("Content-Type: ")
    ensures OneLine("Transfer-Encoding: chunked") && OneLine("Connection: close") && OneLine("Cache-Control: no-cache")
  {
  }

  lemma {:induction false} HeadRead(lines: seq<string>, body: string)
    requires HeaderLines(lines)
    ensures ReadHead(Block(lines) + CRLF + body) == Some(Response(lines, body))
  {
    hide ReadHead, OneLine;
    var s := Block(lines) + CRLF + body;
    if lines == [] {
      assert s == "" + CRLF + body;
      LineFound("", body);
      HeadStep(s);
    } else {
      var line, rest := lines[0], Block(lines[1..]) + CRLF + body;
      HeadRead(lines[1..], body);
      Assoc(line + CRLF, Block(lines[1..]), CRLF);
      Assoc(line + CRLF, Block(lines[1..]) + CRLF, body);
      OneLineIsFree(line);
      LineFound(line, rest);
      HeadStep(s);
      assert lines == [line] + lines[1..];
    }
  }

  lemma OneLineIsFree(s: string)
    requires OneLine(s)
    ensures Free(s, '\r')
  {
  }

  lemma HeadStep(s: string)
    ensures var end := Find(s, CRLF, 0);
            ReadHead(s)
            == if end == -1 then None
               else if end == 0 then Some(Response([], s[2..]))
               else match ReadHead(s[end + 2..])
                    case None => None
                    case Some(r) => Some(Response([s[..end]] + r.lines, r.body))
  {
    hide Find;
  }

  lemma FieldSkipped(line: string, lines: seq<string>, name: string, k: nat)
    requires k < |name| && k < |line| && line[k] != name[k]
    ensures FieldNamed([line] + lines, name) == FieldNamed(lines, name)
  {
    var all := [line] + lines;
    assert all[1..] == lines;
    assert (name + ": ")[k] == name[k];
  }

  lemma FieldFound(name: string, value: string, lines: seq<string>)
    ensures FieldNamed([name + ": " + value] + lines, name) == Some(value)
  {
    var line := name + ": " + value;
    assert name + ": " <= line && line[|name| + 2..] == value;
  }

  /** The head that a client reads: status and message first, then the fields of a chunked stream that
      is not cached and ends with its connection. */
  lemma HeadFields(h: Head)
    ensures var lines := HeadLines(h);
            && lines[0] == "HTTP/1.1 " + Decimal(h.statusCode) + " " + h.statusMessage
            && FieldNamed(lines, "Content-Type") == Some(h.contentType)
            && FieldNamed(lines, "Transfer-Encoding") == Some("chunked")
            && FieldNamed(lines, "Connection") == Some("close")
            && FieldNamed(lines, "Cache-Control") == Some("no-cache")
  {
    hide FieldNamed, Decimal;
    var status := "HTTP/1.1 " + Decimal(h.statusCode) + " " + h.statusMessage;
    var a, b, c, d := "Content-Type: " + h.contentType, "Transfer-Encoding: chunked", "Connection: close",
                      "Cache-Control: no-cache";
    var l4, l3 := [d], [c] + [d];
    var l2 := [b] + l3;
    var l1 := [a] + l2;
    assert HeadLines(h) == [status] + l1;
    FieldSkipped(status, l1, "Content-Type", 0);
    FieldSkipped(status, l1, "Transfer-Encoding", 0);
    FieldSkipped(status, l1, "Connection", 0);
    FieldSkipped(status, l1, "Cache-Control", 0);
    FieldFound("Content-Type", h.contentType, l2);
    assert a == "Content-Type" + ": " + h.contentType;
    FieldSkipped(a, l2, "Transfer-Encoding", 0);
    FieldSkipped(a, l2, "Connection", 3);
    FieldSkipped(a, l2, "Cache-Control", 1);
    FieldFound("Transfer-Encoding", "chunked", l3);
    assert b == "Transfer-Encoding" + ": " + "chunked";
    FieldSkipped(b, l3, "Connection", 0);
    FieldSkipped(b, l3, "Cache-Control", 0);
    FieldFound("Connection", "close", l4);
    assert c == "Connection" + ": " + "close";
    FieldSkipped(c, l4, "Cache-Control", 1);
    FieldFound("Cache-Control", "no-cache", []);
    assert d == "Cache-Control" + ": " + "no-cache" && [d] + [] == [d];
  }

  lemma HeaderSkipped(h: Head, body: string)
    requires OneLine(h.statusMessage) && OneLine(h.contentType)
    ensures ReadHead(HeaderBlock(h) + body) == Some(Response(HeadLines(h), body))
    ensures ClientMessages(HeaderBlock(h) + body) == Parse(Concat(Receive(body).chunks))
  {
    hide HeadLines, Find, Receive, Parse, Concat, ReadHead, FieldNamed;
    HeadLinesAreLines(h);
    HeadFields(h);
    HeadRead(HeadLines(h), body);
  }

  /** Whatever is written first, a client reads the status, the content type and the fields above. */
  lemma HeadDelivered(h: Head, calls: seq<Call>)
    requires OneLine(h.statusMessage) && OneLine(h.contentType) && calls != [] && !calls[0].Hangup?
    ensures ReadHead(Run(HeaderBlock(h), FRESH, calls).sent)
         == Some(Response(HeadLines(h), Chunked(Payloads(calls), Ended(calls))))
  {
    hide HeaderBlock, ReadHead, HeadLines;
    WireFormat(HeaderBlock(h), calls);
    HeaderSkipped(h, Chunked(Payloads(calls), Ended(calls)));
  }

  lemma NothingSent()
    ensures ClientMessages("") == []
  {
  }

  /** A frame starts with a letter or a line feed, so the stream is never taken to begin with
      a byte order mark. */
  lemma NoByteOrderMark(calls: seq<Call>)
    requires forall c <- calls :: !c.Chunk?
    ensures Parse(Concat(Payloads(calls))) == Messages(START, Concat(Payloads(calls)))
  {
    if calls != [] && !Stops(calls[0]) {
      var c := calls[0];
      var f := Frame(c.event, c.data, c.id);
      FrameStart(c.event, c.data, c.id);
      assert Concat(Payloads(calls)) == f + Concat(Payloads(calls[1..])) by {
        assert Payloads(calls)[1..] == Payloads(calls[1..]);
      }
    }
  }

  lemma FrameStart(event: string, data: string, id: string)
    ensures Frame(event, data, id) != "" && Frame(event, data, id)[0] in "eid\n"
  {
    hide DataLines;
    var fields, after := EventLine(event) + IdLine(id), DataLines(data) + "\n";
    Assoc(fields, DataLines(data), "\n");
    DataLinesStart(data);
    assert data != "" ==> after[0] == "data: "[0];
    assert Frame(event, data, id)[0] == if fields != "" then fields[0] else after[0];
  }

  lemma DataLinesStart(data: string)
    ensures data == "" ==> DataLines(data) == ""
    ensures data != "" ==> "data: " <= DataLines(data)
  {
    if data != "" {
      hide DataLines;
      DataLinesStep(data);
    }
  }

  lemma {:induction false} PayloadsNotEmpty(calls: seq<Call>)
    requires forall c <- calls :: !c.Chunk?
    ensures "" !in Payloads(calls)
  {
    if calls != [] && !Stops(calls[0]) {
      FrameStart(calls[0].event, calls[0].data, calls[0].id);
      PayloadsNotEmpty(calls[1..]);
    }
  }

  /** What the client reads is the concatenation of the frames, chunking and headers undone. */
  lemma ClientReads(h: Head, calls: seq<Call>)
    requires OneLine(h.statusMessage) && OneLine(h.contentType)
    requires forall c <- calls :: !c.Chunk?
    ensures ClientMessages(Run(HeaderBlock(h), FRESH, calls).sent) == Messages(START, Concat(Payloads(calls)))
  {
    hide HeaderBlock, ClientMessages, Receive, Parse, Messages;
    WireFormat(HeaderBlock(h), calls);
    if calls == [] || calls[0].Hangup? {
      NothingSent();
      NothingToRead(START);
    } else {
      HeaderSkipped(h, Chunked(Payloads(calls), Ended(calls)));
      PayloadsNotEmpty(calls);
      ChunksReceived(calls);
      NoByteOrderMark(calls);
    }
  }

  /** The calls made before the stream ends. */
  function Live(calls: seq<Call>): seq<Call> {
    if calls == [] || Stops(calls[0]) then [] else [calls[0]] + Live(calls[1..])
  }

  lemma LiveStep(calls: seq<Call>)
    requires calls != [] && !Stops(calls[0])
    ensures forall c :: c in Live(calls) <==> c == calls[0] || c in Live(calls[1..])
  {
  }

  /** Clean events arrive, and events with data arrive only if they are clean. */
  lemma {:induction false} CleanArrives(calls: seq<Call>, lastId: string)
    requires forall c <- calls :: !c.Chunk?
    ensures (forall c <- Live(calls) :: CleanEvent(c)) ==> Arrives(calls, lastId, lastId)
    ensures (forall c <- Live(calls) :: c.Event? ==> c.data != "") ==>
              (Arrives(calls, lastId, lastId) <==> forall c <- Live(calls) :: CleanEvent(c))
    decreases |calls|
  {
    hide CleanEvent, HeardId, FrameMessages, FrameLines, Silent, Live, ExpectedOf;
    if calls == [] || Stops(calls[0]) {
      NothingLive(calls);
    } else {
      var c := calls[0];
      LiveStep(calls);
      CleanArrives(calls[1..], if c.id == "" then lastId else c.id);
      HeardIdIs(lastId, c);
      if CleanEvent(c) { CleanFrame(lastId, c); }
      if c.data == "" { SilentExactlyWhen(lastId, c); }
      NoDataNoMessage(c.event, lastId);
      NoDataNoMessage(c.event, c.id);
    }
  }

  lemma NothingLive(calls: seq<Call>)
    requires calls == [] || Stops(calls[0])
    ensures Live(calls) == []
  {
  }

  lemma NoDataNoMessage(event: string, id: string)
    ensures ExpectedOf(event, "", id) == []
  {
  }

  /** Streams of clean events arrive exactly as written, less one final line feed of data. */
  lemma CleanEventsDelivered(h: Head, calls: seq<Call>)
    requires OneLine(h.statusMessage) && OneLine(h.contentType)
    requires forall c <- calls :: !c.Chunk?
    requires forall c <- Live(calls) :: CleanEvent(c)
    ensures ClientMessages(Run(HeaderBlock(h), FRESH, calls).sent) == Expected(calls, "")
  {
    hide HeaderBlock, ClientMessages, Messages, Arrives, CleanEvent;
    ClientReads(h, calls);
    CleanArrives(calls, "");
    EventsRead(calls, "", "");
  }

  lemma CleanExpectedOf(c: Call, now: string)
    requires c.Event? && c.data != "" && (c.id != "" ==> now == c.id)
    requires forall m <- ExpectedOf(c.event, c.data, now) :: CleanMessage(m)
    ensures CleanEvent(c)
  {
    var m := ExpectedOf(c.event, c.data, now)[0];
    assert CleanMessage(m);
    assert c.data == m.data || c.data == m.data + "\n";
  }

  /** Any run of events is delivered as written if and only if each of its events arrives. When
      all have data, that is: no carriage return in any data, no line break in any event name, and
      no line break or NUL in any id. */
  lemma EventsDelivered(h: Head, calls: seq<Call>)
    requires OneLine(h.statusMessage) && OneLine(h.contentType)
    requires forall c <- calls :: !c.Chunk?
    ensures ClientMessages(Run(HeaderBlock(h), FRESH, calls).sent) == Expected(calls, "")
       <==> Arrives(calls, "", "")
    ensures (forall c <- Live(calls) :: c.Event? ==> c.data != "") ==>
              (ClientMessages(Run(HeaderBlock(h), FRESH, calls).sent) == Expected(calls, "")
               <==> forall c <- Live(calls) :: CleanEvent(c))
  {
    hide HeaderBlock, ClientMessages, Messages, Arrives, CleanEvent;
    ClientReads(h, calls);
    CleanArrives(calls, "");
    EventsRead(calls, "", "");
  }

  lemma SameFrame(name: string, data: string)
    requires name != "" && data != "" && Free(data, '\n')
    ensures Frame(name + "\ndata: " + data, "", "") == Frame(name, data, "")
  {
    hide FindChar;
    assert DataLines(data) == "data: " + data + "\n";
    assert DataLines("") == "";
  }

  /** An event without data can deliver a message that was never written, when its name holds
      what reads as a data line. */
  lemma NameTakenForData(h: Head, name: string, data: string)
    requires OneLine(h.statusMessage) && OneLine(h.contentType)
    requires OneLine(name) && name != "" && OneLine(data) && data != ""
    ensures var calls := [Event(name + "\ndata: " + data, "", "")];
            && Expected(calls, "") == []
            && ClientMessages(Run(HeaderBlock(h), FRESH, calls).sent) == [EventStreams.Message(name, data, "")]
  {
    hide HeaderBlock, ClientMessages, Messages, Frame;
    var odd, plain := Event(name + "\ndata: " + data, "", ""), Event(name, data, "");
    SameFrame(name, data);
    assert [odd][1..] == [] && [plain][1..] == [];
    assert CleanEvent(plain) && Live([plain]) == [plain];
    CleanEventsDelivered(h, [plain]);
  }
}
