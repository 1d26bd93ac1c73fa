/** The request scanner of src/http/http_context.cpp. A `char` stands for one byte. */
module HttpRequests {
  import opened Text
  import opened Wrappers

  const MAX_HEADER_SIZE := 8192
  const MAX_BODY_SIZE := 10485760
  const MAX_REQUEST_LINE_SIZE := 4096

  datatype ParseResult =
    | Ok | BadRequest | MethodNotAllowed | EntityTooLarge | VersionNotSupported | HeaderTooLarge | Incomplete

  datatype Request = Request(verb: string, path: string, version: string, headers: map<string, string>, body: string)

  datatype Parsed = Parsed(result: ParseResult, request: Request)

  const EMPTY := Request("", "", "", map[], "")

  // ---------- Library calls of the source ----------

  predicate IsSpace(c: char) {
    c in " \t\n\r\U{B}\U{C}"
  }

  function SkipSpaces(s: string, pos: nat): (r: nat)
    requires pos <= |s|
    ensures pos <= r <= |s|
    decreases |s| - pos
  {
    if pos < |s| && IsSpace(s[pos]) then SkipSpaces(s, pos + 1) else pos
  }

  function WordEnd(s: string, pos: nat): (r: nat)
    requires pos <= |s|
    ensures pos <= r <= |s|
    decreases |s| - pos
  {
    if pos < |s| && !IsSpace(s[pos]) then WordEnd(s, pos + 1) else pos
  }

  /** `stream >> word`: the next whitespace-separated word, "" when there is none. */
  function Word(s: string, pos: nat): (r: (string, nat))
    requires pos <= |s|
    ensures r.1 <= |s|
  {
    var start := SkipSpaces(s, pos);
    var end := WordEnd(s, start);
    (s[start..end], end)
  }

  function Digits(s: string, pos: nat): (r: nat)
    requires pos <= |s|
    ensures pos <= r <= |s|
    decreases |s| - pos
  {
    if pos < |s| && '0' <= s[pos] <= '9' then Digits(s, pos + 1) else pos
  }

  function DecimalValue(s: string): int {
    if s == "" then 0 else DecimalValue(s[..|s| - 1]) * 10 + (s[|s| - 1] as int - '0' as int)
  }

  const ULL_MAX := 0xFFFF_FFFF_FFFF_FFFF

  /** std::strtoull in base 10 on a whole C string; `None` when digits are missing or something
      follows them. A minus sign negates modulo 2^64, and overflow saturates. */
  function TryParseContentLength(value: string): Option<int> {
    var nul := FindChar(value, '\0', 0);
    var s := if nul == -1 then value else value[..nul];
    var sign := SkipSpaces(s, 0);
    var start := if sign < |s| && s[sign] in "+-" then sign + 1 else sign;
    var end := Digits(s, start);
    if end == start || end < |s| then None
    else
      var v := DecimalValue(s[start..end]);
      if v > ULL_MAX then Some(ULL_MAX)
      else if s[sign] == '-' then Some((ULL_MAX + 1 - v) % (ULL_MAX + 1))
      else Some(v)
  }

  function Lower(c: char): char {
    if 'A' <= c <= 'Z' then (c as int + 32) as char else c
  }

  /** The source compares the key with "Content-Length" over the key's own length only, so every
      case-insensitive prefix of the name matches; the literal's final NUL takes part. */
  predicate IsContentLength(key: string) {
    |key| <= 15 && forall i :: 0 <= i < |key| ==> Lower(key[i]) == Lower("Content-Length\0"[i])
  }

  predicate IsValidMethod(m: string) {
    m in ["GET", "POST", "PUT", "DELETE", "PATCH", "HEAD", "OPTIONS", "TRACE", "CONNECT"]
  }

  predicate IsValidVersion(v: string) {
    v in ["HTTP/1.0", "HTTP/1.1"]
  }

  // ---------- What the scanner computes ----------

  /** The scan state between lines. */
  datatype Scan = Scan(result: ParseResult, request: Request, headerBytes: nat, contentLength: Option<int>)

  function RequestLine(line: string): Scan {
    if |line| > MAX_REQUEST_LINE_SIZE then Scan(BadRequest, EMPTY, 0, None)
    else
      var (verb, p1) := Word(line, 0);
      var (path, p2) := Word(line, p1);
      var (version, _) := Word(line, p2);
      var request := EMPTY.(verb := verb, path := path, version := version);
      var result :=
        if version == "" then BadRequest
        else if !IsValidMethod(verb) then MethodNotAllowed
        else if !IsValidVersion(version) then VersionNotSupported
        else Ok;
      Scan(result, request, 0, None)
  }

  /** One non-empty header line. */
  function HeaderLine(s: Scan, line: string): Scan {
    var colon := FindChar(line, ':', 0);
    if colon == -1 then s.(result := BadRequest)
    else
      var key, rest := line[..colon], line[colon + 1..];
      var value := if rest != "" && rest[0] == ' ' then rest[1..] else rest;
      var added := s.(request := s.request.(headers := s.request.headers[key := value]));
      if !IsContentLength(key) then added
      else if s.contentLength.Some? then s.(result := BadRequest)
      else match TryParseContentLength(value)
        case None => s.(result := BadRequest)
        case Some(n) => if n > MAX_BODY_SIZE then s.(result := EntityTooLarge) else added.(contentLength := Some(n))
  }

  /** The header lines from `pos` on, up to the first empty one or the end of the input. */
  function HeadersFrom(raw: string, pos: nat, s: Scan): Scan
    requires pos <= |raw|
    decreases |raw| - pos
  {
    if pos == |raw| || s.result != Ok then s
    else
      var l := GetLine(raw, '\n', pos);
      var line := DropCR(l.text);
      var counted := s.(headerBytes := s.headerBytes + |line| + 2);
      if counted.headerBytes > MAX_HEADER_SIZE then counted.(result := HeaderTooLarge)
      else if line == "" then counted
      else HeadersFrom(raw, l.next, HeaderLine(counted, line))
  }

  /** Request line and headers. */
  function HeadOf(raw: string): Scan
    requires raw != ""
  {
    var l := GetLine(raw, '\n', 0);
    HeadersFrom(raw, l.next, RequestLine(DropCR(l.text)))
  }

  /** The body is cut out after the first blank line, once all of it is there. */
  function WithBody(raw: string, head: Scan): Parsed {
    if head.result != Ok || head.contentLength.None? || head.contentLength.value <= 0
    then Parsed(head.result, head.request)
    else
      var n, blank := head.contentLength.value, Find(raw, BLANK, 0);
      if blank == -1 then Parsed(BadRequest, head.request)
      else if |raw| - (blank + 4) < n then Parsed(Incomplete, head.request)
      else Parsed(Ok, head.request.(body := raw[blank + 4..blank + 4 + n]))
  }

  function ParseOf(raw: string): Parsed {
    if raw == "" then Parsed(BadRequest, EMPTY)
    else if |raw| > MAX_HEADER_SIZE + MAX_BODY_SIZE then Parsed(EntityTooLarge, EMPTY)
    else WithBody(raw, HeadOf(raw))
  }

  lemma ScanStopped(raw: string, pos: nat, s: Scan)
    requires pos <= |raw| && s.result != Ok
    ensures HeadersFrom(raw, pos, s) == s
  {
  }

  class HttpContext {
    var request: Request
    var result: ParseResult

    constructor ()
      ensures request == EMPTY && result == Ok
    {
      request, result := EMPTY, Ok;
    }

    method ParseRequest(raw: string) returns (ok: bool)
      modifies this
      ensures Parsed(result, request) == ParseOf(raw) && (ok <==> result == Ok)
    {
      hide RequestLine, HeadersFrom;
      request, result := EMPTY, Ok;
      if raw == "" {
        result := BadRequest;
        return false;
      }
      if |raw| > MAX_HEADER_SIZE + MAX_BODY_SIZE {
        result := EntityTooLarge;
        return false;
      }
      var l := GetLine(raw, '\n', 0);
      ParseRequestLine(DropCR(l.text));
      if result != Ok {
        ScanStopped(raw, l.next, RequestLine(DropCR(l.text)));
        return false;
      }
      var contentLength := ParseHeaders(raw, l.next);
      if result != Ok {
        return false;
      }
      CutBody(raw, contentLength);
      return result == Ok;
    }

    method CutBody(raw: string, contentLength: Option<int>)
      requires result == Ok
      modifies this
      ensures forall n: nat :: Parsed(result, request) == WithBody(raw, Scan(Ok, old(request), n, contentLength))
    {
      if contentLength.Some? && contentLength.value > 0 {
        var bodyStart := Find(raw, "\r\n\r\n", 0);
        if bodyStart == -1 {
          result := BadRequest;
          return;
        }
        var bodyOffset := bodyStart + 4;
        if |raw| - bodyOffset < contentLength.value {
          result := Incomplete;
          return;
        }
        request := request.(body := raw[bodyOffset..bodyOffset + contentLength.value]);
      }
    }

    method ParseRequestLine(line: string)
      requires request == EMPTY && result == Ok
      modifies this
      ensures Scan(result, request, 0, None) == RequestLine(line)
    {
      if |line| > MAX_REQUEST_LINE_SIZE {
        result := BadRequest;
        return;
      }
      var (verb, p1) := Word(line, 0);
      var (path, p2) := Word(line, p1);
      var (version, _) := Word(line, p2);
      request := request.(verb := verb, path := path, version := version);
      if version == "" {
        result := BadRequest;
      } else if !IsValidMethod(verb) {
        result := MethodNotAllowed;
      } else if !IsValidVersion(version) {
        result := VersionNotSupported;
      }
    }

    method ParseHeaders(raw: string, start: nat) returns (contentLength: Option<int>)
      requires start <= |raw| && result == Ok
      modifies this
      ensures var s := HeadersFrom(raw, start, Scan(Ok, old(request), 0, None));
              result == s.result && request == s.request && (result == Ok ==> contentLength == s.contentLength)
    {
      hide HeaderLine, FindChar;
      contentLength := None;
      var pos: nat, headerBytes: nat := start, 0;
      ghost var goal := HeadersFrom(raw, start, Scan(Ok, request, 0, None));
      while pos < |raw|
        invariant start <= pos <= |raw| && result == Ok
        invariant goal == HeadersFrom(raw, pos, Scan(Ok, request, headerBytes, contentLength))
      {
        var l := GetLine(raw, '\n', pos);
        var line := DropCR(l.text);
        headerBytes := headerBytes + |line| + 2;
        if headerBytes > MAX_HEADER_SIZE {
          result := HeaderTooLarge;
          return;
        }
        if line == "" {
          return;
        }
        contentLength := ParseHeaderLine(line, contentLength, headerBytes);
        if result != Ok {
          ScanStopped(raw, l.next, Scan(result, request, headerBytes, contentLength));
          return;
        }
        pos := l.next;
      }
    }

    method ParseHeaderLine(line: string, known: Option<int>,
                           ghost headerBytes: nat) returns (contentLength: Option<int>)
      requires result == Ok
      modifies this
      ensures Scan(result, request, headerBytes, contentLength)
           == HeaderLine(Scan(Ok, old(request), headerBytes, known), line)
    {
      hide TryParseContentLength, IsContentLength, FindChar;
      contentLength := known;
      var colon := FindChar(line, ':', 0);
      if colon == -1 {
        result := BadRequest;
        return;
      }
      var key, value := line[..colon], line[colon + 1..];
      if value != "" && value[0] == ' ' {
        value := value[1..];
      }
      if IsContentLength(key) {
        if contentLength.Some? {
          result := BadRequest;
          return;
        }
        var length := TryParseContentLength(value);
        if length.None? {
          result := BadRequest;
          return;
        }
        if length.value > MAX_BODY_SIZE {
          result := EntityTooLarge;
          return;
        }
        contentLength := length;
      }
      request := request.(headers := request.headers[key := value]);
    }
  }

  // ---------- The head does not depend on what follows it ----------

  lemma SameLine(raw: string, more: string, pos: nat, newline: nat)
    requires pos <= newline < |raw| && raw[newline] == '\n'
    ensures GetLine(raw + more, '\n', pos) == GetLine(raw, '\n', pos)
    ensures GetLine(raw, '\n', pos).next <= newline + 1
  {
    hide FindChar;
    var a, b := FindChar(raw, '\n', pos), FindChar(raw + more, '\n', pos);
    assert (raw + more)[a] == '\n' && raw[b] == '\n';
    assert a == b;
    assert (raw + more)[pos..a] == raw[pos..a];
  }

  lemma {:induction false} SameHeaders(raw: string, more: string, blank: nat, pos: nat, s: Scan)
    requires At(raw, blank, BLANK) && pos <= blank + 2
    ensures HeadersFrom(raw + more, pos, s) == HeadersFrom(raw, pos, s)
    decreases |raw| - pos
  {
    hide HeaderLine, At;
    BlankChars(raw, blank);
    if s.result == Ok {
      var newline := if pos == blank + 2 then blank + 3 else blank + 1;
      SameLine(raw, more, pos, newline);
      var l := GetLine(raw, '\n', pos);
      var line := DropCR(l.text);
      if pos == blank + 2 {
        BlankLine(raw, blank);
      } else if line != "" {
        SameHeaders(raw, more, blank, l.next, HeaderLine(s.(headerBytes := s.headerBytes + |line| + 2), line));
      }
    }
  }

  lemma BlankChars(raw: string, blank: nat)
    requires At(raw, blank, BLANK)
    ensures blank + 3 < |raw|
    ensures raw[blank + 1] == '\n' && raw[blank + 2] == '\r' && raw[blank + 3] == '\n'
  {
    AtChar(raw, blank, BLANK, 1);
    AtChar(raw, blank, BLANK, 2);
    AtChar(raw, blank, BLANK, 3);
  }

  lemma BlankLine(raw: string, blank: nat)
    requires At(raw, blank, BLANK)
    ensures DropCR(GetLine(raw, '\n', blank + 2).text) == ""
  {
    hide FindChar;
    BlankChars(raw, blank);
    assert FindChar(raw, '\n', blank + 2) == blank + 3;
    assert raw[blank + 2..blank + 3] == "\r";
  }

  /** Once a blank line has arrived, request line and headers read the same whatever follows. */
  lemma HeadIsStable(raw: string, more: string)
    requires Find(raw, BLANK, 0) != -1
    ensures raw != "" && HeadOf(raw + more) == HeadOf(raw)
    ensures Find(raw + more, BLANK, 0) == Find(raw, BLANK, 0)
  {
    hide Find, RequestLine, HeadersFrom;
    var blank := Find(raw, BLANK, 0);
    BlankChars(raw, blank);
    SameLine(raw, more, 0, blank + 1);
    var l := GetLine(raw, '\n', 0);
    SameHeaders(raw, more, blank, l.next, RequestLine(DropCR(l.text)));
    FindIsStable(raw, more);
  }

  lemma FindIsStable(raw: string, more: string)
    requires Find(raw, BLANK, 0) != -1
    ensures Find(raw + more, BLANK, 0) == Find(raw, BLANK, 0)
  {
    hide Find;
    var s, r := raw + more, Find(raw, BLANK, 0);
    assert s[r..r + 4] == raw[r..r + 4];
    assert At(s, r, BLANK);
    forall i: nat | i < r ensures !At(s, i, BLANK) {
      assert s[i..i + 4] == raw[i..i + 4];
      assert !At(raw, i, BLANK);
    }
  }
}
