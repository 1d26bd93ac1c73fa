/** What the server sends: for requests read as meant the handler's status and the close decision, and
    for requests with one thing wrong the refusals, all said of the bytes that come in. */
module HttpResponses {
  import opened Text
  import opened Wrappers
  import opened HttpRequests
  import opened HttpServing
  import opened HttpRoundTrip

  // ---------- The close decision ----------

  /** The value of the last header of this name. */
  function LastNamed(hs: seq<Header>, name: string): Option<string> {
    if hs == [] then None
    else if hs[|hs| - 1].key == name then Some(hs[|hs| - 1].value)
    else LastNamed(hs[..|hs| - 1], name)
  }

  predicate ReadsClose(v: string) {
    |v| == 5 && v[0] in "cC" && v[1] in "lL" && v[2] in "oO" && v[3] in "sS" && v[4] in "eE"
  }

  /** A client asks for the connection to be closed by its version or by its Connection header. */
  predicate AsksClose(version: string, hs: seq<Header>) {
    version == "HTTP/1.0" || (LastNamed(hs, "Connection").Some? && ReadsClose(LastNamed(hs, "Connection").value))
  }

  lemma {:induction false} OneMore(m: map<string, string>, hs: seq<Header>, h: Header)
    ensures HeadersOnto(m, hs + [h]) == HeadersOnto(m, hs)[h.key := h.value]
    decreases |hs|
  {
    var all := hs + [h];
    if hs == [] {
      assert all[1..] == [];
    } else {
      assert all[1..] == hs[1..] + [h];
      OneMore(m[hs[0].key := hs[0].value], hs[1..], h);
    }
  }

  lemma {:induction false} LastWins(hs: seq<Header>, name: string)
    ensures var all := HeadersOnto(map[], hs);
            LastNamed(hs, name) == if name in all then Some(all[name]) else None
  {
    if hs != [] {
      var n := |hs| - 1;
      assert hs == hs[..n] + [hs[n]];
      OneMore(map[], hs[..n], hs[n]);
      LastWins(hs[..n], name);
    }
  }

  lemma CloseDecision(r: Request, hs: seq<Header>)
    requires r.headers == HeadersOnto(map[], hs)
    ensures ShouldClose(r) <==> AsksClose(r.version, hs)
  {
    hide IsClose, ReadsClose;
    LastWins(hs, "Connection");
    if "Connection" in r.headers { CloseRead(r.headers["Connection"]); }
  }

  lemma CloseRead(v: string)
    ensures IsClose(v) <==> ReadsClose(v)
  {
    if |v| == 5 {
      LowerIs(v[0], 'c', 'C');
      LowerIs(v[1], 'l', 'L');
      LowerIs(v[2], 'o', 'O');
      LowerIs(v[3], 's', 'S');
      LowerIs(v[4], 'e', 'E');
    }
  }

  lemma LowerIs(c: char, lower: char, upper: char)
    requires 'a' <= lower <= 'z' && upper as int == lower as int - 32
    ensures Lower(c) == lower <==> c == lower || c == upper
  {
  }

  // ---------- Requests read as meant ----------

  /** A request that declares the length of its body, sent to a handler that leaves it as it is: what
      goes out has the handler's status, or 500 if the handler throws, and the connection is closed
      exactly if the client asks for that; if the handler streams, nothing goes out from here. */
  lemma ResponseSent(w: Handlers, conn: nat, m: Message, reaction: Reaction)
    requires Acceptable(m) && Declared(m.headers) == Some(|m.body|)
    requires w(Meant(m)) == Dispatched(reaction, Meant(m))
    ensures Handle(w, conn, ParseOf(Wire(m)))
         == Handled(conn, Parsed(Ok, Meant(m)),
                    match reaction
                    case Responds(status) => Sent(status, AsksClose(m.version, m.headers))
                    case Throws => Sent(500, AsksClose(m.version, m.headers))
                    case Streams => Streaming)
  {
    hide Acceptable, Declared, ParseOf, Wire, AsksClose, ShouldClose;
    WireRead(m);
    CloseDecision(Meant(m), m.headers);
  }

  // ---------- Refusals ----------

  /** The parser's verdict, and what is sent. */
  ghost predicate Refused(w: Handlers, raw: string, result: ParseResult, status: int, close: bool) {
    ParseOf(raw).result == result && EffectOf(w, ParseOf(raw)) == Sent(status, close)
  }

  lemma HeadDecides(raw: string)
    requires raw != "" && |raw| <= 8192 + 10485760 && HeadOf(raw).result != Ok
    ensures ParseOf(raw) == Parsed(HeadOf(raw).result, HeadOf(raw).request)
  {
    hide HeadOf;
  }

  lemma AfterRequestLine(line: string, rest: string)
    requires OneLine(line)
    ensures var raw := line + CRLF + rest;
            && raw != "" && raw[|line| + 2..] == rest
            && HeadOf(raw) == HeadersFrom(raw, |line| + 2, RequestLine(line))
  {
    hide RequestLine, HeadersFrom, GetLine, DropCR;
    var raw := line + CRLF + rest;
    assert raw[0..] == raw;
    CrlfLine(raw, 0, line, rest);
  }

  /** A request line refused is refused whatever follows it. */
  lemma LineRefused(w: Handlers, line: string, rest: string)
    requires OneLine(line) && RequestLine(line).result != Ok && RequestLine(line).request.headers == map[]
    requires |line + CRLF + rest| <= 8192 + 10485760
    ensures var s := RequestLine(line);
            Refused(w, line + CRLF + rest, s.result, ErrorStatus(s.result), s.request.version == "HTTP/1.0")
  {
    hide RequestLine, HeadersFrom, HeadOf;
    var raw, s := line + CRLF + rest, RequestLine(line);
    AfterRequestLine(line, rest);
    ScanStopped(raw, |line| + 2, s);
    HeadDecides(raw);
    assert HeadersOnto(map[], []) == map[];
    CloseDecision(s.request, []);
  }

  const KNOWN_METHODS := ["GET", "POST", "PUT", "DELETE", "PATCH", "HEAD", "OPTIONS", "TRACE", "CONNECT"]

  /** Any other method is refused with 405. */
  lemma UnknownMethodRefused(w: Handlers, m: Message)
    requires IsWord(m.verb) && IsWord(m.path) && IsWord(m.version) && m.verb !in KNOWN_METHODS
    requires |RequestLineText(m)| <= 4096 && |Wire(m)| <= 8192 + 10485760
    ensures Refused(w, Wire(m), MethodNotAllowed, 405, m.version == "HTTP/1.0")
  {
    hide IsWord, RequestLineText, RequestLine, Refused;
    RequestLineIsLine(m);
    RequestLineRead(m);
    LineRefused(w, RequestLineText(m), Block(HeaderTexts(m.headers)) + CRLF + m.body);
  }

  /** Any other version is refused with 505. */
  lemma UnknownVersionRefused(w: Handlers, m: Message)
    requires IsWord(m.verb) && IsWord(m.path) && IsWord(m.version) && m.verb in KNOWN_METHODS
    requires m.version !in ["HTTP/1.0", "HTTP/1.1"]
    requires |RequestLineText(m)| <= 4096 && |Wire(m)| <= 8192 + 10485760
    ensures Refused(w, Wire(m), VersionNotSupported, 505, false)
  {
    hide IsWord, RequestLineText, RequestLine, Refused;
    RequestLineIsLine(m);
    RequestLineRead(m);
    LineRefused(w, RequestLineText(m), Block(HeaderTexts(m.headers)) + CRLF + m.body);
  }

  /** A request line of more than 4096 bytes is refused with 400. */
  lemma LongRequestLineRefused(w: Handlers, line: string, rest: string)
    requires OneLine(line) && |line| > 4096 && |line + CRLF + rest| <= 8192 + 10485760
    ensures Refused(w, line + CRLF + rest, BadRequest, 400, false)
  {
    hide Refused;
    LineRefused(w, line, rest);
  }

  /** More bytes than headers and body may have together are refused with 413. */
  lemma TooLargeRefused(w: Handlers, raw: string)
    requires |raw| > 8192 + 10485760
    ensures Refused(w, raw, EntityTooLarge, 413, false)
  {
    hide HeadOf;
  }

  /** A good request line and headers none of which is taken for Content-Length. */
  predicate GoodSoFar(m: Message) {
    && m.verb in KNOWN_METHODS && IsWord(m.path) && m.version in ["HTTP/1.0", "HTTP/1.1"]
    && |RequestLineText(m)| <= 4096
    && (forall i :: 0 <= i < |m.headers| ==> IsField(m.headers[i]) && !IsContentLength(m.headers[i].key))
  }

  /** The request up to the end of the headers of `m`, with more to come. */
  function Begun(m: Message, rest: string): string {
    RequestLineText(m) + CRLF + (Block(HeaderTexts(m.headers)) + rest)
  }

  lemma {:induction false} NoLengths(hs: seq<Header>)
    requires forall i :: 0 <= i < |hs| ==> !IsContentLength(hs[i].key)
    ensures Lengths(hs) == []
  {
    hide IsContentLength, TryParseContentLength;
    if hs != [] { NoLengths(hs[1..]); }
  }

  lemma GoodLine(m: Message, rest: string)
    requires GoodSoFar(m)
    ensures var s, pos := Scan(Ok, EMPTY.(verb := m.verb, path := m.path, version := m.version), 0, None),
              |RequestLineText(m)| + 2;
            && Begun(m, rest) != "" && pos <= |Begun(m, rest)|
            && Begun(m, rest)[pos..] == Block(HeaderTexts(m.headers)) + rest
            && HeadOf(Begun(m, rest)) == HeadersFrom(Begun(m, rest), pos, s)
  {
    hide IsWord, RequestLineText, RequestLine, HeadersFrom, HeadOf, Block, HeaderTexts;
    KnownWords(m);
    RequestLineIsLine(m);
    RequestLineRead(m);
    AfterRequestLine(RequestLineText(m), Block(HeaderTexts(m.headers)) + rest);
  }

  /** A bad line after good headers: the request is refused as that line is. */
  lemma BadLineRefused(w: Handlers, m: Message, line: string, rest: string, result: ParseResult)
    requires GoodSoFar(m) && OneLine(line) && line != "" && result != Ok
    requires Size(HeaderTexts(m.headers)) + |line| + 2 <= 8192
    requires |Begun(m, line + CRLF + rest)| <= 8192 + 10485760
    requires forall s: Scan :: s.result == Ok && s.contentLength == None ==> HeaderLine(s, line) == s.(result := result)
    ensures Refused(w, Begun(m, line + CRLF + rest), result, ErrorStatus(result), AsksClose(m.version, m.headers))
  {
    hide HeadersFrom, HeadOf, HeaderLine, Block, HeaderTexts, ScannedAll, Begun, ParseOf, AsksClose, Lengths, IsField;
    var raw, pos := Begun(m, line + CRLF + rest), |RequestLineText(m)| + 2;
    var s := Scan(Ok, EMPTY.(verb := m.verb, path := m.path, version := m.version), 0, None);
    GoodLine(m, line + CRLF + rest);
    NoLengths(m.headers);
    HeadersScanned(raw, pos, m.headers, line + CRLF + rest, s);
    ScannedTotals(s, m.headers);
    NoLengthsVerdict();
    var t := ScannedAll(s, m.headers);
    var end := pos + |Block(HeaderTexts(m.headers))|;
    LineScanned(raw, end, line, rest, t);
    var bad := t.(headerBytes := t.headerBytes + |line| + 2, result := result);
    ScanStopped(raw, end + |line| + 2, bad);
    HeadDecides(raw);
    CloseDecision(t.request, m.headers);
  }

  lemma NoLengthsVerdict()
    ensures Verdict(None, []) == Ok
  {
  }

  /** A header line without a colon is refused with 400. */
  lemma NoColonRefused(w: Handlers, m: Message, line: string, rest: string)
    requires GoodSoFar(m) && OneLine(line) && line != "" && Free(line, ':')
    requires Size(HeaderTexts(m.headers)) + |line| + 2 <= 8192
    requires |Begun(m, line + CRLF + rest)| <= 8192 + 10485760
    ensures Refused(w, Begun(m, line + CRLF + rest), BadRequest, 400, AsksClose(m.version, m.headers))
  {
    hide Refused, GoodSoFar, Begun, Size;
    BadLineRefused(w, m, line, rest, BadRequest);
  }

  /** A declared length over 10 MiB is refused with 413. */
  lemma LongBodyRefused(w: Handlers, m: Message, n: nat, rest: string)
    requires GoodSoFar(m) && n > 10485760
    requires var line := "Content-Length: " + Decimal(n);
             && Size(HeaderTexts(m.headers)) + |line| + 2 <= 8192
             && |Begun(m, line + CRLF + rest)| <= 8192 + 10485760
    ensures Refused(w, Begun(m, "Content-Length: " + Decimal(n) + CRLF + rest), EntityTooLarge, 413,
                    AsksClose(m.version, m.headers))
  {
    hide Refused, GoodSoFar, Begun, Size, Decimal, TryParseContentLength, IsContentLength, HeaderLine, AsksClose;
    var h := LengthHeader(n);
    var line := HeaderText(h);
    assert line == "Content-Length: " + Decimal(n);
    LengthName();
    HeaderTextIsLine(h);
    LengthRead("", "", n, "");
    assert "" + "" + Decimal(n) + "" == Decimal(n);
    forall s: Scan | s.result == Ok && s.contentLength == None
      ensures HeaderLine(s, line) == s.(result := EntityTooLarge)
    {
      LongLine(s, h, n);
    }
    BadLineRefused(w, m, line, rest, EntityTooLarge);
  }

  lemma LongLine(s: Scan, h: Header, n: nat)
    requires s.result == Ok && s.contentLength == None && n > 10485760
    requires IsContentLength(h.key) && Free(h.key, ':')
    requires TryParseContentLength(h.value) == Some(if n > ULL_MAX then ULL_MAX else n)
    ensures HeaderLine(s, HeaderText(h)) == s.(result := EntityTooLarge)
  {
    hide FindChar, IsContentLength, TryParseContentLength;
    Colon(h);
    assert (" " + h.value)[1..] == h.value;
  }

  lemma LineTooLong(raw: string, pos: nat, line: string, rest: string, s: Scan)
    requires pos <= |raw| && raw[pos..] == line + CRLF + rest && OneLine(line)
    requires s.result == Ok && s.headerBytes + |line| + 2 > 8192
    ensures HeadersFrom(raw, pos, s).result == HeaderTooLarge
  {
    hide GetLine, HeaderLine, DropCR;
    CrlfLine(raw, pos, line, rest);
  }

  lemma {:induction false} TooManyBytes(raw: string, pos: nat, hs: seq<Header>, rest: string, s: Scan)
    requires forall i :: 0 <= i < |hs| ==> IsField(hs[i]) && !IsContentLength(hs[i].key)
    requires s.result == Ok && s.headerBytes + Size(HeaderTexts(hs)) + 2 > 8192
    requires pos <= |raw| && raw[pos..] == Block(HeaderTexts(hs)) + (CRLF + rest)
    ensures HeadersFrom(raw, pos, s).result == HeaderTooLarge
    decreases |hs|
  {
    hide HeadersFrom, HeaderText, HeaderLine, IsField, IsContentLength, Block;
    if hs == [] {
      NoBlock();
      assert "" + (CRLF + rest) == "" + CRLF + rest;
      LineTooLong(raw, pos, "", rest, s);
    } else {
      var line, later := HeaderText(hs[0]), Block(HeaderTexts(hs[1..])) + (CRLF + rest);
      FieldIsOneLine(hs[0]);
      HeaderTextIsLine(hs[0]);
      BlockCons(hs);
      Assoc(line + CRLF, Block(HeaderTexts(hs[1..])), CRLF + rest);
      if s.headerBytes + |line| + 2 > 8192 {
        LineTooLong(raw, pos, line, later, s);
      } else {
        LineScanned(raw, pos, line, later, s);
        HeaderScanned(s, hs[0]);
        BytesScanned(s, hs[0]);
        PlainVerdict(s.contentLength);
        TooManyBytes(raw, pos + |line| + 2, hs[1..], rest, Scanned(s, hs[0]));
      }
    }
  }

  lemma PlainVerdict(known: Option<int>)
    ensures Verdict(known, []) == Ok
  {
  }

  /** Headers of more than 8192 bytes in all, each line counted with its CRLF, are refused with 400. */
  lemma LongHeadersRefused(w: Handlers, m: Message)
    requires GoodSoFar(m) && Size(HeaderTexts(m.headers)) + 2 > 8192 && |Wire(m)| <= 8192 + 10485760
    ensures ParseOf(Wire(m)).result == HeaderTooLarge
    ensures EffectOf(w, ParseOf(Wire(m))).Sent? && EffectOf(w, ParseOf(Wire(m))).status == 400
  {
    hide HeadersFrom, HeadOf, Block, HeaderTexts, Size, ParseOf, ShouldClose, RequestLineText;
    var s := Scan(Ok, EMPTY.(verb := m.verb, path := m.path, version := m.version), 0, None);
    Assoc(Block(HeaderTexts(m.headers)), CRLF, m.body);
    assert Wire(m) == Begun(m, CRLF + m.body);
    GoodLine(m, CRLF + m.body);
    TooManyBytes(Wire(m), |RequestLineText(m)| + 2, m.headers, m.body, s);
    HeadDecides(Wire(m));
  }

  // ---------- Requests without a blank line, and short request lines ----------

  lemma {:induction false} BlockHasNoBlank(lines: seq<string>)
    requires lines != [] && HeaderLines(lines)
    ensures Find(Block(lines), BLANK, 0) == -1
  {
    hide At, HeaderLines;
    var s, r := Block(lines), Find(Block(lines), BLANK, 0);
    if r != -1 {
      Inside(s, r);
      NoBlankInBlock(lines, "", r);
      assert s + CRLF + "" == s + CRLF;
      BlankKept(s, r);
    }
  }

  lemma Inside(s: string, i: int)
    requires At(s, i, BLANK)
    ensures 0 <= i && i + 4 <= |s|
  {
  }

  lemma BlankKept(s: string, i: nat)
    ensures At(s, i, BLANK) ==> At(s + CRLF, i, BLANK)
  {
    if i + 4 <= |s| { assert (s + CRLF)[i..i + 4] == s[i..i + 4]; }
  }

  /** A request that stops after its header lines, with no blank line, is accepted without a body ... */
  lemma NoBlankLineAccepted(m: Message)
    requires GoodSoFar(m) && Size(HeaderTexts(m.headers)) <= 8192 && |Begun(m, "")| <= 8192 + 10485760
    ensures ParseOf(Begun(m, "")) == Parsed(Ok, Meant(m).(body := ""))
  {
    hide HeadersFrom, HeadOf, HeaderLine, Block, HeaderTexts, ScannedAll, Begun, Lengths, IsField, Find;
    var raw, pos := Begun(m, ""), |RequestLineText(m)| + 2;
    var s := Scan(Ok, EMPTY.(verb := m.verb, path := m.path, version := m.version), 0, None);
    GoodLine(m, "");
    NoLengths(m.headers);
    HeadersScanned(raw, pos, m.headers, "", s);
    ScannedTotals(s, m.headers);
    NoLengthsVerdict();
    AtTheEnd(raw, pos + |Block(HeaderTexts(m.headers))|, ScannedAll(s, m.headers));
  }

  lemma AtTheEnd(raw: string, pos: nat, s: Scan)
    requires pos <= |raw| && raw[pos..] == ""
    ensures HeadersFrom(raw, pos, s) == s
  {
  }

  /** ... and refused with 400 if it declares one. */
  lemma NoBlankLineRefused(w: Handlers, m: Message, n: nat)
    requires GoodSoFar(m) && 0 < n <= 10485760
    requires var line := "Content-Length: " + Decimal(n);
             && Size(HeaderTexts(m.headers)) + |line| + 2 <= 8192
             && |Begun(m, line + CRLF)| <= 8192 + 10485760
    ensures ParseOf(Begun(m, "Content-Length: " + Decimal(n) + CRLF)).result == BadRequest
    ensures var e := EffectOf(w, ParseOf(Begun(m, "Content-Length: " + Decimal(n) + CRLF)));
            e.Sent? && e.status == 400
  {
    hide HeadersFrom, HeadOf, HeaderLine, Block, HeaderTexts, ScannedAll, Begun, Lengths, IsField, Find, Decimal;
    hide TryParseContentLength, IsContentLength, ShouldClose, RequestLineText, IsWord, FindChar;
    var h := LengthHeader(n);
    var line := HeaderText(h);
    assert line == "Content-Length: " + Decimal(n) && line + CRLF + "" == line + CRLF;
    var raw, pos := Begun(m, line + CRLF), |RequestLineText(m)| + 2;
    var s := Scan(Ok, EMPTY.(verb := m.verb, path := m.path, version := m.version), 0, None);
    GoodLine(m, line + CRLF);
    NoLengths(m.headers);
    HeadersScanned(raw, pos, m.headers, line + CRLF, s);
    ScannedTotals(s, m.headers);
    NoLengthsVerdict();
    LengthName();
    HeaderTextIsLine(h);
    LengthParsed(n);
    var t, end := ScannedAll(s, m.headers), pos + |Block(HeaderTexts(m.headers))|;
    LineScanned(raw, end, line, "", t);
    LengthIsField(n);
    HeaderScanned(t, h);
    OneLength(t.contentLength, n);
    AtTheEnd(raw, end + |line| + 2, Scanned(t, h));
    BegunHasNoBlank(m, h);
    CutShort(raw);
  }

  lemma LengthIsField(n: nat)
    ensures IsField(LengthHeader(n))
  {
    hide Decimal, IsContentLength;
    LengthName();
  }

  lemma OneLength(known: Option<int>, n: nat)
    ensures known.None? && n <= 10485760 ==> Verdict(known, [Some(n)]) == Ok
  {
    assert [Some(n)][1..] == [];
  }

  lemma CutShort(raw: string)
    requires raw != "" && |raw| <= 8192 + 10485760 && Find(raw, BLANK, 0) == -1
    requires HeadOf(raw).result == Ok && HeadOf(raw).contentLength.Some? && HeadOf(raw).contentLength.value > 0
    ensures ParseOf(raw).result == BadRequest
  {
    hide HeadOf, Find;
  }

  lemma BegunHasNoBlank(m: Message, h: Header)
    requires GoodSoFar(m) && OneLine(h.key) && OneLine(h.value)
    ensures Find(Begun(m, HeaderText(h) + CRLF), BLANK, 0) == -1
  {
    hide Find, OneLine, RequestLineText, HeaderText, IsWord, IsContentLength;
    KnownWords(m);
    RequestLineIsLine(m);
    HeaderTextIsLine(h);
    var own := HeaderTexts(m.headers);
    FieldsAreLines(m.headers);
    HeaderTextsAreLines(m.headers);
    var lines := [RequestLineText(m)] + own + [HeaderText(h)];
    BlockOfMore(own, HeaderText(h));
    assert lines[1..] == own + [HeaderText(h)];
    assert Block(lines) == RequestLineText(m) + CRLF + Block(own + [HeaderText(h)]);
    BlockHasNoBlank(lines);
  }

  lemma FieldsAreLines(hs: seq<Header>)
    requires forall i :: 0 <= i < |hs| ==> IsField(hs[i])
    ensures forall i :: 0 <= i < |hs| ==> OneLine(hs[i].key) && OneLine(hs[i].value)
  {
  }

  lemma {:induction false} BlockOfMore(lines: seq<string>, line: string)
    ensures Block(lines + [line]) == Block(lines) + (line + CRLF)
    decreases |lines|
  {
    var all := lines + [line];
    if lines == [] {
      assert all == [line] && [line][1..] == [];
      assert Block([line]) == line + CRLF + Block([]);
    } else {
      assert all[1..] == lines[1..] + [line];
      BlockOfMore(lines[1..], line);
      Assoc(lines[0] + CRLF, Block(lines[1..]), line + CRLF);
    }
  }

  /** A request line of one or two words is refused with 400. */
  lemma ShortLineRefused(w: Handlers, verb: string, path: string, rest: string)
    requires IsWord(verb) && (path == "" || IsWord(path))
    requires var line := verb + if path == "" then "" else " " + path;
             |line| <= 4096 && |line + CRLF + rest| <= 8192 + 10485760
    ensures Refused(w, (verb + if path == "" then "" else " " + path) + CRLF + rest, BadRequest, 400, false)
  {
    hide Word, IsWord, Refused, IsValidMethod, IsValidVersion;
    var line := verb + if path == "" then "" else " " + path;
    NextWord("", verb, if path == "" then "" else " " + path);
    assert "" + verb + (if path == "" then "" else " " + path) == line;
    ShortLineIsLine(verb, path);
    NoMoreWords(line);
    if path != "" {
      NextWord(verb + " ", path, "");
      assert verb + " " + path + "" == line;
    }
    LineRefused(w, line, rest);
  }

  lemma NoMoreWords(line: string)
    ensures Word(line, |line|) == ("", |line|)
  {
    assert line[|line|..|line|] == "";
  }

  lemma ShortLineIsLine(verb: string, path: string)
    requires IsWord(verb) && (path == "" || IsWord(path))
    ensures OneLine(verb + if path == "" then "" else " " + path)
  {
    assert OneLine(verb) && OneLine(" ") && OneLine(path);
    OneLineAppend(" ", path);
    OneLineAppend(verb, if path == "" then "" else " " + path);
  }
}
