/** Requests written as section 3 of RFC 9112 prescribes, and exactly when they are read back as
    they were meant. */
module HttpRoundTrip {
  import opened Text
  import opened Wrappers
  import opened HttpRequests
  import opened HttpServing

  datatype Header = Header(key: string, value: string)

  datatype Message = Message(verb: string, path: string, version: string, headers: seq<Header>, body: string)

  function RequestLineText(m: Message): string {
    m.verb + " " + m.path + " " + m.version
  }

  function HeaderText(h: Header): string {
    h.key + ": " + h.value
  }

  function HeaderTexts(hs: seq<Header>): seq<string> {
    if hs == [] then [] else [HeaderText(hs[0])] + HeaderTexts(hs[1..])
  }

  /** A request on the wire, with exactly the headers given. */
  function Wire(m: Message): string {
    RequestLineText(m) + CRLF + (Block(HeaderTexts(m.headers)) + CRLF + m.body)
  }

  function LengthHeader(n: nat): Header {
    Header("Content-Length", Decimal(n))
  }

  /** The request as a sender completes it: a body is announced by its length. */
  function Announced(m: Message): Message {
    if m.body == "" then m else m.(headers := m.headers + [LengthHeader(|m.body|)])
  }

  /** The header map a recipient ends up with; a later header replaces an earlier one. */
  function HeadersOnto(m: map<string, string>, hs: seq<Header>): map<string, string>
    decreases |hs|
  {
    if hs == [] then m else HeadersOnto(m[hs[0].key := hs[0].value], hs[1..])
  }

  predicate IsWord(s: string) {
    s != "" && forall i :: 0 <= i < |s| ==> !IsSpace(s[i])
  }

  /** Two bytes of every line are its CRLF. */
  function Size(lines: seq<string>): nat {
    if lines == [] then 0 else |lines[0]| + 2 + Size(lines[1..])
  }

  /** Within the limits of the server and of the message grammar. */
  predicate Acceptable(m: Message) {
    && IsValidMethod(m.verb) && IsWord(m.path) && IsValidVersion(m.version)
    && |RequestLineText(m)| <= MAX_REQUEST_LINE_SIZE
    && (forall i :: 0 <= i < |m.headers| ==> IsField(m.headers[i]))
    && Size(HeaderTexts(m.headers)) + 2 <= MAX_HEADER_SIZE
    && |m.body| <= MAX_BODY_SIZE && |Wire(m)| <= MAX_HEADER_SIZE + MAX_BODY_SIZE
  }

  predicate IsField(h: Header) {
    OneLine(h.key) && Free(h.key, ':') && OneLine(h.value)
  }

  /** What the headers that the scanner takes for Content-Length declare, in order. */
  function Lengths(hs: seq<Header>): seq<Option<int>> {
    if hs == [] then []
    else (if IsContentLength(hs[0].key) then [TryParseContentLength(hs[0].value)] else []) + Lengths(hs[1..])
  }

  /** The body length declared: none is as good as 0, two are as bad as an unreadable one. */
  function Declared(hs: seq<Header>): Option<int> {
    var ls := Lengths(hs);
    if ls == [] then Some(0) else if |ls| == 1 then ls[0] else None
  }

  // ---------- The request line ----------

  lemma {:induction false} WordEndsAt(s: string, pos: nat, end: nat)
    requires pos <= end <= |s| && (forall i :: pos <= i < end ==> !IsSpace(s[i]))
    requires end < |s| ==> IsSpace(s[end])
    ensures WordEnd(s, pos) == end
    decreases end - pos
  {
    if pos < end { WordEndsAt(s, pos + 1, end); }
  }

  /** A word after at most one blank. */
  lemma NextWord(before: string, word: string, after: string)
    requires IsWord(word) && (after == "" || IsSpace(after[0])) && (before == "" || before[|before| - 1] == ' ')
    ensures var s := before + word + after;
            var pos := if before == "" then 0 else |before| - 1;
            Word(s, pos) == (word, |before| + |word|)
  {
    var s := before + word + after;
    var pos := if before == "" then 0 else |before| - 1;
    assert forall i :: 0 <= i < |word| ==> s[|before| + i] == word[i];
    assert before != "" ==> s[pos] == ' ';
    assert SkipSpaces(s, |before|) == |before|;
    assert SkipSpaces(s, pos) == |before|;
    assert after != "" ==> s[|before| + |word|] == after[0];
    WordEndsAt(s, |before|, |before| + |word|);
    assert s[|before|..|before| + |word|] == word;
  }

  lemma SpacesAreLow(c: char)
    ensures IsSpace(c) ==> c <= ' '
  {
  }

  lemma HighIsWord(s: string)
    requires s != "" && forall i :: 0 <= i < |s| ==> s[i] > ' '
    ensures IsWord(s)
  {
    hide IsSpace;
    forall i | 0 <= i < |s| ensures !IsSpace(s[i]) {
      SpacesAreLow(s[i]);
    }
  }

  lemma KnownWords(m: Message)
    requires IsValidMethod(m.verb) && IsValidVersion(m.version)
    ensures IsWord(m.verb) && IsWord(m.version)
  {
    hide IsWord;
    HighIsWord(m.verb);
    HighIsWord(m.version);
  }

  lemma RequestLineRead(m: Message)
    requires IsWord(m.verb) && IsWord(m.path) && IsWord(m.version)
    requires |RequestLineText(m)| <= MAX_REQUEST_LINE_SIZE
    ensures RequestLine(RequestLineText(m))
         == Scan(if !IsValidMethod(m.verb) then MethodNotAllowed
                 else if !IsValidVersion(m.version) then VersionNotSupported else Ok,
                 EMPTY.(verb := m.verb, path := m.path, version := m.version), 0, None)
  {
    hide Word, IsValidMethod, IsValidVersion, IsWord;
    var s := RequestLineText(m);
    var a, b := m.verb + " ", m.verb + " " + m.path + " ";
    NextWord("", m.verb, " " + m.path + " " + m.version);
    assert "" + m.verb + (" " + m.path + " " + m.version) == s;
    NextWord(a, m.path, " " + m.version);
    assert a + m.path + (" " + m.version) == s;
    NextWord(b, m.version, "");
    assert b + m.version + "" == s;
    WordNotEmpty(m.version);
  }

  lemma WordNotEmpty(s: string)
    requires IsWord(s)
    ensures s != ""
  {
  }

  // ---------- Numbers ----------

  lemma {:induction false} DecimalRoundTrip(n: nat)
    ensures DecimalValue(Decimal(n)) == n
    ensures forall i :: 0 <= i < |Decimal(n)| ==> '0' <= Decimal(n)[i] <= '9'
  {
    DecimalDigit(n % 10);
    if n < 10 {
      assert Decimal(n)[..0] == "";
    } else {
      hide Digit;
      DecimalRoundTrip(n / 10);
      var s := Decimal(n);
      assert s[..|s| - 1] == Decimal(n / 10);
    }
  }

  lemma DecimalDigit(d: nat)
    requires d < 10
    ensures '0' <= Digit(d) <= '9' && Digit(d) as int - '0' as int == d
  {
  }

  lemma {:induction false} DigitsFrom(s: string, pos: nat)
    requires pos <= |s| && forall i :: pos <= i < |s| ==> '0' <= s[i] <= '9'
    ensures Digits(s, pos) == |s|
    decreases |s| - pos
  {
    if pos < |s| { DigitsFrom(s, pos + 1); }
  }

  predicate StartsWithDigit(s: string) {
    s != "" && '0' <= s[0] <= '9'
  }

  /** The scan of blanks, a sign and digits, up to what ends the number. */
  lemma NumberScanned(spaces: string, sign: string, v: nat, tail: string)
    requires (forall c <- spaces :: IsSpace(c)) && sign in ["", "+", "-"] && !StartsWithDigit(tail)
    ensures var s, start := spaces + sign + Decimal(v) + tail, |spaces| + |sign|;
            && SkipSpaces(s, 0) == |spaces| && (s[|spaces|] in "+-" <==> sign != "")
            && (sign != "" ==> s[|spaces|] == sign[0])
            && Digits(s, start) == start + |Decimal(v)| && s[start..start + |Decimal(v)|] == Decimal(v)
  {
    hide Decimal, IsSpace, SkipSpaces, Digits;
    DecimalRoundTrip(v);
    var d := Decimal(v);
    var s, start, rest := spaces + sign + d + tail, |spaces| + |sign|, sign + d + tail;
    assert s == spaces + rest;
    assert rest[0] == if sign == "" then d[0] else sign[0];
    NotSpace(rest[0]);
    SpacesSkipped(spaces, rest, 0);
    assert s[|spaces|] == rest[0];
    DigitsBetween(spaces + sign, d, tail);
  }

  lemma DigitsBetween(before: string, d: string, tail: string)
    requires (forall i :: 0 <= i < |d| ==> '0' <= d[i] <= '9') && !StartsWithDigit(tail)
    ensures var s, n := before + d + tail, |before|; Digits(s, n) == n + |d| && s[n..n + |d|] == d
  {
    hide Digits;
    var s, n := before + d + tail, |before|;
    assert forall i :: n <= i < n + |d| ==> s[i] == d[i - n];
    assert tail != "" ==> s[n + |d|] == tail[0];
    DigitsUpTo(s, n, n + |d|);
  }

  lemma NotSpace(c: char)
    requires '0' <= c <= '9' || c in "+-"
    ensures !IsSpace(c)
  {
  }

  lemma {:induction false} SpacesSkipped(spaces: string, rest: string, k: nat)
    requires k <= |spaces| && (forall c <- spaces :: IsSpace(c)) && (rest == "" || !IsSpace(rest[0]))
    ensures SkipSpaces(spaces + rest, k) == |spaces|
    decreases |spaces| - k
  {
    if k < |spaces| {
      assert (spaces + rest)[k] == spaces[k];
      SpacesSkipped(spaces, rest, k + 1);
    }
  }

  lemma {:induction false} DigitsUpTo(s: string, pos: nat, end: nat)
    requires pos <= end <= |s| && (forall i :: pos <= i < end ==> '0' <= s[i] <= '9')
    requires end < |s| ==> !('0' <= s[end] <= '9')
    ensures Digits(s, pos) == end
    decreases end - pos
  {
    if pos < end { DigitsUpTo(s, pos + 1, end); }
  }

  /** How a length is read: blanks, perhaps a sign, and digits, and nothing after them but what a NUL
      cuts off. A minus sign negates modulo 2^64; more than 64 bits saturate. */
  lemma LengthRead(spaces: string, sign: string, v: nat, junk: string)
    requires (forall c <- spaces :: IsSpace(c)) && sign in ["", "+", "-"] && !StartsWithDigit(junk)
    ensures TryParseContentLength(spaces + sign + Decimal(v) + junk)
         == if junk != "" && junk[0] != '\0' then None
            else Some(if v > ULL_MAX then ULL_MAX
                      else if sign == "-" then (ULL_MAX + 1 - v) % (ULL_MAX + 1) else v)
  {
    hide DecimalValue, Digits, FindChar, Decimal, SkipSpaces;
    var number := spaces + sign + Decimal(v);
    var value := number + junk;
    DecimalRoundTrip(v);
    NoNulInNumber(spaces, sign, v);
    var nul := FindChar(value, '\0', 0);
    assert forall i :: 0 <= i < |number| ==> value[i] == number[i];
    assert nul != -1 ==> nul >= |number|;
    if junk == "" || junk[0] == '\0' {
      assert junk != "" ==> value[|number|] == junk[0];
      assert (if nul == -1 then value else value[..nul]) == number;
      NumberScanned(spaces, sign, v, "");
      assert number + "" == number;
    } else {
      assert value[|number|] == junk[0];
      var tail := if nul == -1 then junk else junk[..nul - |number|];
      assert tail != "" && tail[0] == junk[0];
      assert (if nul == -1 then value else value[..nul]) == number + tail;
      NumberScanned(spaces, sign, v, tail);
    }
  }

  lemma NoNulInNumber(spaces: string, sign: string, v: nat)
    requires (forall c <- spaces :: IsSpace(c)) && sign in ["", "+", "-"]
    ensures forall i :: 0 <= i < |spaces + sign + Decimal(v)| ==> (spaces + sign + Decimal(v))[i] != '\0'
  {
    hide Decimal;
    DecimalRoundTrip(v);
    var s := spaces + sign + Decimal(v);
    forall i | 0 <= i < |s| ensures s[i] != '\0' {
      if i < |spaces| {
        assert s[i] == spaces[i] && IsSpace(spaces[i]);
      }
    }
  }

  /** Without a digit there is no length. */
  lemma NoDigitsNoLength(value: string)
    requires forall c <- value :: !('0' <= c <= '9')
    ensures TryParseContentLength(value) == None
  {
    hide DecimalValue, FindChar;
    var nul := FindChar(value, '\0', 0);
    var s := if nul == -1 then value else value[..nul];
    forall i | 0 <= i < |s| ensures !('0' <= s[i] <= '9') {
      assert s[i] in value;
    }
  }

  lemma LengthParsed(n: nat)
    requires n <= ULL_MAX
    ensures TryParseContentLength(Decimal(n)) == Some(n)
  {
    hide TryParseContentLength, Decimal;
    LengthRead("", "", n, "");
    assert "" + "" + Decimal(n) + "" == Decimal(n);
  }

  /** A negative length is not refused: it wraps around, so that just above -2^64 the
      lengths of acceptable bodies come round again. */
  lemma NegativeLengthWraps(v: nat)
    ensures var n := TryParseContentLength("-" + Decimal(v));
            && n.Some?
            && (n.value <= MAX_BODY_SIZE <==> v == 0 || ULL_MAX + 1 - MAX_BODY_SIZE <= v <= ULL_MAX)
            && (n.value <= MAX_BODY_SIZE ==> n.value == if v == 0 then 0 else ULL_MAX + 1 - v)
  {
    hide TryParseContentLength, Decimal;
    LengthRead("", "-", v, "");
    assert "" + "-" + Decimal(v) + "" == "-" + Decimal(v);
  }

  lemma {:induction false} DecimalNotNegative(s: string)
    requires forall i :: 0 <= i < |s| ==> '0' <= s[i] <= '9'
    ensures DecimalValue(s) >= 0
  {
    if s != "" { DecimalNotNegative(s[..|s| - 1]); }
  }

  lemma LengthNotNegative(value: string)
    ensures TryParseContentLength(value).Some? ==> TryParseContentLength(value).value >= 0
  {
    hide DecimalValue, FindChar;
    var nul := FindChar(value, '\0', 0);
    var s := if nul == -1 then value else value[..nul];
    var sign := SkipSpaces(s, 0);
    var start := if sign < |s| && s[sign] in "+-" then sign + 1 else sign;
    DigitsAreDigits(s, start);
    DecimalNotNegative(s[start..Digits(s, start)]);
  }

  lemma {:induction false} DigitsAreDigits(s: string, pos: nat)
    requires pos <= |s|
    ensures forall i :: pos <= i < Digits(s, pos) ==> '0' <= s[i] <= '9'
    decreases |s| - pos
  {
    if pos < |s| && '0' <= s[pos] <= '9' { DigitsAreDigits(s, pos + 1); }
  }

  // ---------- Header lines ----------

  /** What one accepted header line adds to the scan. */
  function Added(s: Scan, h: Header): Scan {
    s.(headerBytes := s.headerBytes + |HeaderText(h)| + 2,
       request := s.request.(headers := s.request.headers[h.key := h.value]))
  }

  /** One header line scanned, its bytes counted. */
  function Scanned(s: Scan, h: Header): Scan {
    HeaderLine(s.(headerBytes := s.headerBytes + |HeaderText(h)| + 2), HeaderText(h))
  }

  function ScannedAll(s: Scan, hs: seq<Header>): Scan
    decreases |hs|
  {
    if hs == [] || s.result != Ok then s else ScannedAll(Scanned(s, hs[0]), hs[1..])
  }

  /** The verdict on the lengths declared, `known` being one read before. */
  function Verdict(known: Option<int>, ls: seq<Option<int>>): ParseResult
    decreases |ls|
  {
    if ls == [] then Ok
    else if known.Some? || ls[0].None? then BadRequest
    else if ls[0].value > MAX_BODY_SIZE then EntityTooLarge
    else Verdict(ls[0], ls[1..])
  }

  lemma Colon(h: Header)
    requires Free(h.key, ':')
    ensures var line := HeaderText(h);
            FindChar(line, ':', 0) == |h.key| && line[..|h.key|] == h.key && line[|h.key| + 1..] == " " + h.value
  {
    var line := HeaderText(h);
    assert line[|h.key|] == ": "[0] && forall i :: 0 <= i < |h.key| ==> line[i] == h.key[i];
  }

  lemma HeaderScanned(s: Scan, h: Header)
    requires IsField(h) && s.result == Ok
    ensures var n, t := TryParseContentLength(h.value), Scanned(s, h);
            && (!IsContentLength(h.key) ==> t == Added(s, h))
            && (IsContentLength(h.key) && s.contentLength.None? && n.Some? && n.value <= MAX_BODY_SIZE ==>
                  t == Added(s, h).(contentLength := n))
            && t.result == Verdict(s.contentLength, if IsContentLength(h.key) then [n] else [])
  {
    hide FindChar, IsContentLength, TryParseContentLength;
    Colon(h);
    assert (" " + h.value)[1..] == h.value;
  }

  lemma LengthName()
    ensures IsContentLength("Content-Length") && Free("Content-Length", ':') && OneLine("Content-Length")
  {
  }

  /** The names taken for Content-Length: the beginnings of that name in any mixture of cases, the
      name itself with a NUL after it included. */
  lemma LengthNames(key: string)
    ensures IsContentLength(key)
       <==> && |key| <= 15 && (|key| == 15 ==> key[14] == '\0')
            && forall i :: 0 <= i < |key| && i < 14 ==> key[i] == "content-length"[i] || key[i] == "CONTENT-LENGTH"[i]
  {
    forall i | 0 <= i < |key| && i < 15
      ensures Lower(key[i]) == Lower("Content-Length\0"[i])
         <==> if i == 14 then key[i] == '\0' else key[i] == "content-length"[i] || key[i] == "CONTENT-LENGTH"[i]
    {
      CaseOf(key[i], i);
    }
  }

  lemma CaseOf(c: char, i: nat)
    requires i < 15
    ensures Lower(c) == Lower("Content-Length\0"[i])
       <==> if i == 14 then c == '\0' else c == "content-length"[i] || c == "CONTENT-LENGTH"[i]
  {
  }

  /** A line standing at `pos`, and what follows it. */
  lemma CrlfLine(raw: string, pos: nat, line: string, rest: string)
    requires pos <= |raw| && raw[pos..] == line + CRLF + rest && OneLine(line)
    ensures GetLine(raw, '\n', pos) == Line(line + "\r", pos + |line| + 2)
    ensures DropCR(line + "\r") == line
    ensures raw[pos + |line| + 2..] == rest
  {
    hide FindChar;
    var s := raw[pos..];
    assert forall i :: 0 <= i < |line| ==> s[i] == line[i];
    assert s[|line|] == CRLF[0] && s[|line| + 1] == CRLF[1];
    assert forall i :: 0 <= i < |s| ==> raw[pos + i] == s[i];
    assert FindChar(raw, '\n', pos) == pos + |line| + 1;
    assert raw[pos..pos + |line| + 1] == s[..|line| + 1] == line + "\r";
    assert s[|line| + 2..] == rest;
  }

  lemma LineScanned(raw: string, pos: nat, line: string, rest: string, s: Scan)
    requires pos <= |raw| && raw[pos..] == line + CRLF + rest && OneLine(line)
    requires s.result == Ok && s.headerBytes + |line| + 2 <= MAX_HEADER_SIZE
    ensures pos + |line| + 2 <= |raw| && raw[pos + |line| + 2..] == rest
    ensures var counted := s.(headerBytes := s.headerBytes + |line| + 2);
            HeadersFrom(raw, pos, s)
            == if line == "" then counted else HeadersFrom(raw, pos + |line| + 2, HeaderLine(counted, line))
  {
    hide GetLine, HeaderLine, DropCR;
    CrlfLine(raw, pos, line, rest);
  }

  lemma HeaderTextIsLine(h: Header)
    requires OneLine(h.key) && OneLine(h.value)
    ensures OneLine(HeaderText(h)) && HeaderText(h) != ""
  {
    assert OneLine(": ");
    OneLineAppend(h.key, ": ");
    OneLineAppend(h.key + ": ", h.value);
  }

  /** All header lines are scanned, up to the first that is refused. */
  lemma {:induction false} HeadersScanned(raw: string, pos: nat, hs: seq<Header>, rest: string, s: Scan)
    requires forall i :: 0 <= i < |hs| ==> IsField(hs[i])
    requires s.headerBytes + Size(HeaderTexts(hs)) <= MAX_HEADER_SIZE
    requires pos <= |raw| && raw[pos..] == Block(HeaderTexts(hs)) + rest
    ensures var n := |Block(HeaderTexts(hs))|;
            && pos + n <= |raw| && raw[pos + n..] == rest
            && HeadersFrom(raw, pos, s) == HeadersFrom(raw, pos + n, ScannedAll(s, hs))
    decreases |hs|
  {
    hide HeadersFrom, HeaderText, HeaderLine, IsField, Block;
    Rest(raw, pos, Block(HeaderTexts(hs)), rest);
    if s.result != Ok {
      ScanStopped(raw, pos, s);
      ScanStopped(raw, pos + |Block(HeaderTexts(hs))|, s);
    } else if hs == [] {
      NoBlock();
    } else {
      var line, later := HeaderText(hs[0]), Block(HeaderTexts(hs[1..])) + rest;
      FieldIsOneLine(hs[0]);
      HeaderTextIsLine(hs[0]);
      BlockCons(hs);
      Assoc(line + CRLF, Block(HeaderTexts(hs[1..])), rest);
      LineScanned(raw, pos, line, later, s);
      BytesScanned(s, hs[0]);
      HeadersScanned(raw, pos + |line| + 2, hs[1..], rest, Scanned(s, hs[0]));
    }
  }

  lemma Rest(raw: string, pos: nat, block: string, rest: string)
    requires pos <= |raw| && raw[pos..] == block + rest
    ensures pos + |block| <= |raw| && raw[pos + |block|..] == rest
  {
    assert raw[pos + |block|..] == raw[pos..][|block|..];
  }

  lemma NoBlock()
    ensures Block(HeaderTexts([])) == ""
  {
  }

  lemma BlockCons(hs: seq<Header>)
    requires hs != []
    ensures Block(HeaderTexts(hs)) == HeaderText(hs[0]) + CRLF + Block(HeaderTexts(hs[1..]))
    ensures Size(HeaderTexts(hs)) == |HeaderText(hs[0])| + 2 + Size(HeaderTexts(hs[1..]))
  {
    hide HeaderText;
    assert HeaderTexts(hs)[1..] == HeaderTexts(hs[1..]);
  }

  lemma BytesScanned(s: Scan, h: Header)
    ensures Scanned(s, h).headerBytes == s.headerBytes + |HeaderText(h)| + 2
  {
    hide IsContentLength, TryParseContentLength, FindChar, HeaderText;
  }

  lemma FieldIsOneLine(h: Header)
    requires IsField(h)
    ensures OneLine(h.key) && OneLine(h.value)
  {
  }

  /** What the headers amount to: the verdict is the one on the lengths they declare, and when it
      is good they are all in the map. */
  lemma {:induction false} ScannedTotals(s: Scan, hs: seq<Header>)
    requires s.result == Ok && forall i :: 0 <= i < |hs| ==> IsField(hs[i])
    ensures var t, ls := ScannedAll(s, hs), Lengths(hs);
            && t.result == Verdict(s.contentLength, ls)
            && (t.result == Ok ==>
                  && t.contentLength == (if ls == [] then s.contentLength else ls[|ls| - 1])
                  && t.headerBytes == s.headerBytes + Size(HeaderTexts(hs))
                  && t.request == s.request.(headers := HeadersOnto(s.request.headers, hs)))
    decreases |hs|
  {
    hide HeaderText, IsField, IsContentLength, TryParseContentLength, HeaderLine;
    if hs != [] {
      HeaderScanned(s, hs[0]);
      BytesScanned(s, hs[0]);
      assert HeaderTexts(hs)[1..] == HeaderTexts(hs[1..]);
      var first := if IsContentLength(hs[0].key) then [TryParseContentLength(hs[0].value)] else [];
      assert Lengths(hs) == first + Lengths(hs[1..]);
      if first != [] { assert Lengths(hs)[1..] == Lengths(hs[1..]); }
      if Scanned(s, hs[0]).result == Ok {
        ScannedTotals(Scanned(s, hs[0]), hs[1..]);
      }
    }
  }

  lemma VerdictIsGood(ls: seq<Option<int>>)
    ensures Verdict(None, ls) == Ok
       <==> ls == [] || (|ls| == 1 && ls[0].Some? && ls[0].value <= MAX_BODY_SIZE)
    ensures Verdict(None, ls) != Incomplete
  {
    if |ls| > 1 && ls[0].Some? && ls[0].value <= MAX_BODY_SIZE {
      assert Verdict(ls[0], ls[1..]) == BadRequest;
    }
  }

  lemma BlankScanned(raw: string, pos: nat, rest: string, s: Scan)
    requires pos <= |raw| && raw[pos..] == CRLF + rest
    requires s.result == Ok && s.headerBytes + 2 <= MAX_HEADER_SIZE
    ensures HeadersFrom(raw, pos, s) == s.(headerBytes := s.headerBytes + 2)
  {
    hide HeadersFrom;
    assert "" + CRLF + rest == CRLF + rest;
    LineScanned(raw, pos, "", rest, s);
  }

  // ---------- The whole request ----------

  /** The request the sender meant. */
  function Meant(m: Message): Request {
    Request(m.verb, m.path, m.version, HeadersOnto(map[], m.headers), m.body)
  }

  lemma RequestLineIsLine(m: Message)
    requires IsWord(m.verb) && IsWord(m.path) && IsWord(m.version)
    ensures OneLine(RequestLineText(m)) && RequestLineText(m) != ""
  {
    assert OneLine(m.verb) && OneLine(" ") && OneLine(m.path) && OneLine(m.version);
    OneLineAppend(m.verb, " ");
    OneLineAppend(m.verb + " ", m.path);
    OneLineAppend(m.verb + " " + m.path, " ");
    OneLineAppend(m.verb + " " + m.path + " ", m.version);
  }

  lemma {:induction false} HeaderTextsAreLines(hs: seq<Header>)
    requires forall i :: 0 <= i < |hs| ==> OneLine(hs[i].key) && OneLine(hs[i].value)
    ensures HeaderLines(HeaderTexts(hs))
  {
    hide HeaderText, OneLine;
    if hs != [] {
      HeaderTextIsLine(hs[0]);
      HeaderTextsAreLines(hs[1..]);
    }
  }

  /** The blank line is found at the end of the headers. */
  lemma BlankFound(m: Message)
    requires Acceptable(m)
    ensures Find(Wire(m), BLANK, 0) == |Wire(m)| - |m.body| - 4 >= 0
  {
    hide Find, IsWord, HeaderText, RequestLineText, OneLine;
    KnownWords(m);
    RequestLineIsLine(m);
    HeaderTextsAreLines(m.headers);
    var lines := [RequestLineText(m)] + HeaderTexts(m.headers);
    assert lines[1..] == HeaderTexts(m.headers);
    BlockEnd(lines, m.body);
    assert Wire(m) == Block(lines) + CRLF + m.body;
  }

  lemma WireHead(m: Message)
    requires Acceptable(m)
    ensures Wire(m) != ""
    ensures var h, ls := HeadOf(Wire(m)), Lengths(m.headers);
            && h.result == Verdict(None, ls)
            && (h.result == Ok ==>
                  && h.request == Meant(m).(body := "")
                  && h.contentLength == if ls == [] then None else ls[0])
  {
    hide HeadersFrom, HeaderText, RequestLineText, Block, IsWord, IsValidMethod, IsValidVersion, RequestLine, DropCR;
    hide ScannedAll, Lengths, Verdict, HeadersOnto, IsField, Size;
    var line, block := RequestLineText(m), Block(HeaderTexts(m.headers));
    var raw := Wire(m);
    var s := Scan(Ok, EMPTY.(verb := m.verb, path := m.path, version := m.version), 0, None);
    KnownWords(m);
    RequestLineIsLine(m);
    RequestLineRead(m);
    assert raw[0..] == line + CRLF + (block + CRLF + m.body);
    CrlfLine(raw, 0, line, block + CRLF + m.body);
    Assoc(block, CRLF, m.body);
    HeadersScanned(raw, |line| + 2, m.headers, CRLF + m.body, s);
    ScannedTotals(s, m.headers);
    VerdictIsGood(Lengths(m.headers));
    var t, end := ScannedAll(s, m.headers), |line| + 2 + |block|;
    if t.result == Ok {
      BlankScanned(raw, end, m.body, t);
    } else {
      ScanStopped(raw, end, t);
    }
  }

  lemma BodyAtEnd(m: Message)
    ensures |m.body| <= |Wire(m)| && Wire(m)[|Wire(m)| - |m.body|..] == m.body
  {
    hide RequestLineText, Block, HeaderTexts;
    Assoc(RequestLineText(m) + CRLF, Block(HeaderTexts(m.headers)) + CRLF, m.body);
  }

  lemma DeclaredLength(hs: seq<Header>)
    ensures var ls, d := Lengths(hs), Declared(hs);
            && (d.Some? ==> d.value >= 0)
            && (Verdict(None, ls) == Ok <==> d.Some? && d.value <= MAX_BODY_SIZE)
  {
    hide TryParseContentLength, IsContentLength, Verdict;
    LengthsNotNegative(hs);
    VerdictIsGood(Lengths(hs));
  }

  lemma {:induction false} LengthsNotNegative(hs: seq<Header>)
    ensures forall n <- Lengths(hs) :: n.Some? ==> n.value >= 0
  {
    hide TryParseContentLength, IsContentLength;
    if hs != [] {
      LengthNotNegative(hs[0].value);
      LengthsNotNegative(hs[1..]);
    }
  }

  /** Whatever headers an acceptable request carries, it is accepted if and only if they declare a
      length that its body has; then method, path, version and all headers are as written and the
      body is cut to that length. So all of it is as meant if and only if the length declared is
      that of the body. */
  lemma WireRead(m: Message)
    requires Acceptable(m)
    ensures var p, d := ParseOf(Wire(m)), Declared(m.headers);
            && (d.Some? ==> d.value >= 0)
            && (p.result == Ok <==> d.Some? && d.value <= |m.body|)
            && (p.result == Ok ==> p.request == Meant(m).(body := m.body[..d.value]))
            && (p == Parsed(Ok, Meant(m)) <==> d == Some(|m.body|))
  {
    hide HeadOf, Find, Wire, Lengths, Verdict, TryParseContentLength, IsContentLength;
    WireHead(m);
    BlankFound(m);
    BodyAtEnd(m);
    DeclaredLength(m.headers);
    VerdictIsGood(Lengths(m.headers));
    var raw, d := Wire(m), Declared(m.headers);
    assert |raw| <= MAX_HEADER_SIZE + MAX_BODY_SIZE;
    if d.Some? && d.value <= |m.body| {
      var start := |raw| - |m.body|;
      assert raw[start..start + d.value] == raw[start..][..d.value];
    }
  }

  // ---------- Requests with their body announced ----------

  /** The sender's own headers leave the length to the announcement: with a body none of them is
      taken for Content-Length, without one they may declare it once, as 0. */
  predicate LeavesLength(m: Message) {
    if m.body == "" then Declared(m.headers) == Some(0) else Lengths(m.headers) == []
  }

  lemma {:induction false} LengthsAppend(hs: seq<Header>, h: Header)
    ensures Lengths(hs + [h]) == Lengths(hs) + Lengths([h])
  {
    hide TryParseContentLength, IsContentLength;
    var all := hs + [h];
    if hs == [] {
      assert all == [h] && [] + Lengths([h]) == Lengths([h]);
    } else {
      LengthsAppend(hs[1..], h);
      LengthsStep(hs);
      LengthsStep(all);
      hide Lengths;
      assert all[1..] == hs[1..] + [h];
      AppendAssoc(LengthOf(hs[0]), Lengths(hs[1..]), Lengths([h]));
    }
  }

  function LengthOf(h: Header): seq<Option<int>> {
    if IsContentLength(h.key) then [TryParseContentLength(h.value)] else []
  }

  lemma LengthsStep(hs: seq<Header>)
    requires hs != []
    ensures Lengths(hs) == LengthOf(hs[0]) + Lengths(hs[1..])
  {
    hide TryParseContentLength, IsContentLength;
  }

  lemma AnnouncedLength(m: Message)
    requires |m.body| <= MAX_BODY_SIZE
    ensures Declared(Announced(m).headers) == Some(|m.body|) <==> LeavesLength(m)
  {
    hide TryParseContentLength, IsContentLength;
    if m.body != "" {
      var h := LengthHeader(|m.body|);
      LengthName();
      LengthParsed(|m.body|);
      LengthsAppend(m.headers, h);
      assert Lengths([h]) == [Some(|m.body|)];
    }
  }

  /** The round trip: an acceptable request is parsed as meant -- method, path, version, headers
      and body -- if and only if its own headers leave the length to the announcement. */
  lemma RequestRoundTrip(m: Message)
    requires Acceptable(Announced(m))
    ensures ParseOf(Wire(Announced(m))) == Parsed(Ok, Meant(Announced(m))) <==> LeavesLength(m)
  {
    hide Acceptable, ParseOf, Wire, Meant, LeavesLength, Declared;
    BodyIsSmall(Announced(m));
    AnnouncedLength(m);
    WireRead(Announced(m));
  }

  lemma BodyIsSmall(m: Message)
    requires Acceptable(m)
    ensures |m.body| <= MAX_BODY_SIZE
  {
  }

  /** The smallest request that shows it: a header named `C`, or not named at all, is taken for
      Content-Length, and its value refused. */
  lemma PrefixNameRefused(key: string)
    requires key == "C" || key == ""
    ensures var m := Message("GET", "/", "HTTP/1.1", [Header(key, "x")], "");
            Acceptable(m) && !LeavesLength(m) && ParseOf(Wire(m)).result == BadRequest
  {
    hide ParseOf, HeadOf;
    var h := Header(key, "x");
    var m := Message("GET", "/", "HTTP/1.1", [h], "");
    SmallRequest(h);
    NoDigitsNoLength("x");
    assert [h][1..] == [];
    assert Lengths([h]) == [None];
    WireHead(m);
    HeadRefused(Wire(m));
  }

  lemma HeadRefused(raw: string)
    requires raw != "" && |raw| <= MAX_HEADER_SIZE + MAX_BODY_SIZE && HeadOf(raw).result != Ok
    ensures ParseOf(raw).result == HeadOf(raw).result
  {
    hide HeadOf;
  }

  lemma SmallRequest(h: Header)
    requires IsField(h) && |h.key| + |h.value| <= 100
    ensures Acceptable(Message("GET", "/", "HTTP/1.1", [h], ""))
  {
    var m := Message("GET", "/", "HTTP/1.1", [h], "");
    assert [h][1..] == [] && HeaderTexts([h]) == [HeaderText(h)] && [HeaderText(h)][1..] == [];
    assert Block([HeaderText(h)]) == HeaderText(h) + CRLF + Block([]);
    assert Size([HeaderText(h)]) == |HeaderText(h)| + 2 + Size([]);
  }

  /** A request whose length is declared by a negative number that wraps around to the length of
      its body is served as if the number had been that length. */
  lemma NegativeLengthServed(m: Message, v: nat)
    requires Acceptable(m) && m.headers == [Header("Content-Length", "-" + Decimal(v))] && v > 0
    ensures ParseOf(Wire(m)) == Parsed(Ok, Meant(m)) <==> v <= ULL_MAX && v + |m.body| == ULL_MAX + 1
  {
    hide Acceptable, ParseOf, Wire, Meant, TryParseContentLength, IsContentLength, Decimal;
    BodyIsSmall(m);
    LengthName();
    NegativeLengthWraps(v);
    assert Lengths(m.headers) == [TryParseContentLength("-" + Decimal(v))];
    WireRead(m);
  }

  lemma AnnouncedIsWhole(m: Message)
    requires Acceptable(Announced(m)) && LeavesLength(m)
    ensures WholeRequest(Wire(Announced(m))) && ParseOf(Wire(Announced(m))) == Parsed(Ok, Meant(Announced(m)))
  {
    hide Acceptable, ParseOf, HeadOf, Find, Wire, Meant, LeavesLength, Lengths;
    var a := Announced(m);
    RequestRoundTrip(m);
    BodyIsSmall(a);
    AnnouncedLength(m);
    WireHead(a);
    VerdictIsGood(Lengths(a.headers));
    HeadIsGood(Wire(a));
    BlankFound(a);
  }

  lemma HeadIsGood(raw: string)
    requires raw != ""
    ensures ParseOf(raw).result == Ok ==> HeadOf(raw).result == Ok
  {
    hide HeadOf, Find;
  }

  /** A request whose headers do not leave the length alone is either refused at once or, when it
      has no body but declares one, never complete. */
  lemma FirstVerdict(m: Message, first: string, more: string)
    requires Acceptable(Announced(m)) && !LeavesLength(m)
    requires Wire(Announced(m)) == first + more && Find(first, BLANK, 0) != -1
    ensures ParseOf(first).result != Ok && (ParseOf(first).result == Incomplete ==> more == "")
  {
    hide Acceptable, ParseOf, HeadOf, Find, Wire, Meant, LeavesLength, Lengths, Declared, Verdict;
    var a := Announced(m);
    BodyIsSmall(a);
    AnnouncedLength(m);
    WireHead(a);
    DeclaredLength(a.headers);
    VerdictIsGood(Lengths(a.headers));
    WireRead(a);
    BlankFound(a);
    HeadIsStable(first, more);
    WireIsSmall(a);
    if HeadOf(first).result != Ok {
      HeadRefused(first);
    } else {
      OnlyEmptyBodies(m);
      assert more == "";
      assert first + "" == first;
    }
  }

  lemma WireIsSmall(m: Message)
    requires Acceptable(m)
    ensures |Wire(m)| <= MAX_HEADER_SIZE + MAX_BODY_SIZE
  {
  }

  lemma OnlyEmptyBodies(m: Message)
    requires |m.body| <= MAX_BODY_SIZE && !LeavesLength(m) && Declared(Announced(m).headers).Some?
    ensures m.body == ""
  {
    hide TryParseContentLength, IsContentLength;
    if m.body != "" {
      var h := LengthHeader(|m.body|);
      LengthName();
      assert |Lengths([h])| == 1;
      LengthsAppend(m.headers, h);
    }
  }

  lemma NotDispatched(w: Handlers, m: Message, s: State, ds: seq<Delivery>, conn: nat)
    requires Acceptable(Announced(m)) && conn !in s.partial && !LeavesLength(m)
    requires var segments := SegmentsOf(ds, conn);
             && segments != [] && (forall i :: 0 <= i < |segments| ==> segments[i] != "")
             && Concat(segments) == Wire(Announced(m)) && Find(segments[0], BLANK, 0) != -1
    ensures HandledFor(HttpServing.Run(w, s, ds).handled, conn)
         != HandledFor(s.handled, conn) + [Handle(w, conn, Parsed(Ok, Meant(Announced(m))))]
  {
    hide Find, Wire, ParseOf, Acceptable, LeavesLength, Meant;
    hide HandledFor, HttpServing.Run, SegmentsOf, Verdicts, Dispatches;
    var segments := SegmentsOf(ds, conn);
    var v := Verdicts("", segments);
    FirstVerdict(m, segments[0], Concat(segments[1..]));
    ConnectionsAreIndependent(w, s, ds, conn);
    VerdictsStep("", segments);
    assert "" + segments[0] == segments[0];
    DispatchesStep(w, conn, v);
    if v[0].result == Incomplete {
      MoreToCome(segments);
      assert segments[1..] == [];
      NoVerdicts(segments[0]);
      NoDispatches(w, conn);
    }
    NotThatOne(HandledFor(s.handled, conn), Dispatches(w, conn, v), Handle(w, conn, Parsed(Ok, Meant(Announced(m)))));
  }

  lemma MoreToCome(segments: seq<string>)
    ensures |segments| > 1 && segments[1] != "" ==> Concat(segments[1..]) != ""
  {
    if |segments| > 1 { assert segments[1..][0] == segments[1]; }
  }

  lemma DispatchesStep(w: Handlers, conn: nat, v: seq<Parsed>)
    requires v != []
    ensures Dispatches(w, conn, v)
         == (if v[0].result == Incomplete then [] else [Handle(w, conn, v[0])]) + Dispatches(w, conn, v[1..])
  {
    hide Handle;
  }

  lemma NoDispatches(w: Handlers, conn: nat)
    ensures Dispatches(w, conn, []) == []
  {
  }

  lemma NotThatOne<T>(before: seq<T>, more: seq<T>, x: T)
    requires more == [] || more[0] != x
    ensures before + more != before + [x]
  {
    assert (before + [x])[|before|] == x;
    assert more != [] ==> (before + more)[|before|] == more[0];
  }

  /** Written requests are whole requests, so the fragmentation theorems apply to them: with any
      other traffic in between, and however the body is cut up, there is one dispatch of what was
      meant -- if and only if the sender's own headers leave the length to the announcement. */
  lemma WrittenRequestServed(w: Handlers, m: Message, s: State, ds: seq<Delivery>, conn: nat)
    requires Acceptable(Announced(m)) && conn !in s.partial
    requires var segments := SegmentsOf(ds, conn);
             && segments != [] && (forall i :: 0 <= i < |segments| ==> segments[i] != "")
             && Concat(segments) == Wire(Announced(m)) && Find(segments[0], BLANK, 0) != -1
    ensures HandledFor(HttpServing.Run(w, s, ds).handled, conn)
         == HandledFor(s.handled, conn) + [Handle(w, conn, Parsed(Ok, Meant(Announced(m))))]
       <==> LeavesLength(m)
  {
    hide Find, HeadersFrom, RequestLine, Wire, ParseOf, Acceptable, LeavesLength, Meant;
    if LeavesLength(m) {
      AnnouncedIsWhole(m);
      FragmentedRequestHandledOnce(w, s, ds, conn);
    } else {
      NotDispatched(w, m, s, ds, conn);
    }
  }
}
