/** The multipart/form-data parser of src/http/multipart_parser.cpp, and the encoder of
    section 4 of RFC 7578 (multipart syntax: section 5.1.1 of RFC 2046) that it must undo. */
module Multipart {
  import opened Text
  import opened Wrappers

  datatype MultipartField = MultipartField(name: string, value: string, filename: string,
                                           contentType: string, data: string)

  /** `Hangs` stands for the two `continue`s that leave `pos` where it was: the loop then
      repeats the same iteration for ever. */
  datatype Step = Stop | Hangs | Found(field: MultipartField, next: nat)

  datatype Result = Accepted | Rejected | Diverges

  datatype Outcome = Outcome(fields: seq<MultipartField>, terminates: bool)

  // ---------- One part ----------

  function Headers(block: string, pos: nat, headers: map<string, string>): map<string, string>
    requires pos <= |block|
    decreases |block| - pos
  {
    if pos == |block| then headers
    else
      var l := GetLine(block, '\n', pos);
      var line := DropCR(l.text);
      if line == "" then headers
      else Headers(block, l.next, AddHeader(headers, line))
  }

  function AddHeader(headers: map<string, string>, line: string): map<string, string> {
    var colon := FindChar(line, ':', 0);
    if colon == -1 then headers
    else
      var value := line[colon + 1..];
      headers[line[..colon] := if value != "" && value[0] == ' ' then value[1..] else value]
  }

  function Lookup(headers: map<string, string>, key: string): string {
    if key in headers then headers[key] else ""
  }

  /** The text between the first `key` and the next double quote. */
  function Quoted(s: string, key: string): string {
    var p := Find(s, key, 0);
    if p == -1 then ""
    else
      var end := FindChar(s, '"', p + |key|);
      if end == -1 then "" else s[p + |key|..end]
  }

  function DropCRLF(data: string): string {
    if |data| >= 2 && data[|data| - 2..] == CRLF then data[..|data| - 2] else data
  }

  function FieldValue(filename: string, data: string): string {
    if filename != "" then "(file: " + filename + ", " + Decimal(|data|) + " bytes)" else data
  }

  function FieldOf(disposition: string, contentType: string, data: string): MultipartField {
    var filename := Quoted(disposition, "filename=\"");
    MultipartField(Quoted(disposition, "name=\""), FieldValue(filename, data), filename, contentType, data)
  }

  const DISPOSITION := "Content-Disposition"

  /** A part the loop gets past: it has a blank line, and above it a Content-Disposition that is
      not empty. */
  predicate Readable(raw: string) {
    var headerEnd := Find(raw, BLANK, 0);
    headerEnd != -1 && Lookup(Headers(raw[..headerEnd], 0, map[]), DISPOSITION) != ""
  }

  /** The part between two boundaries: its headers, a blank line, its data. */
  function PartField(raw: string): MultipartField
    requires Readable(raw)
  {
    var headerEnd := Find(raw, BLANK, 0);
    var headers := Headers(raw[..headerEnd], 0, map[]);
    FieldOf(Lookup(headers, DISPOSITION), Lookup(headers, "Content-Type"), DropCRLF(raw[headerEnd + 4..]))
  }

  function ReadPart(raw: string, next: nat): Step {
    if Readable(raw) then Found(PartField(raw), next) else Hangs
  }

  // ---------- The scan ----------

  /** One iteration of the loop, from `pos`. */
  function ScanPart(body: string, boundary: string, pos: nat): (r: Step)
    ensures r.Found? ==> pos < r.next <= |body|
  {
    var delimiter := "--" + boundary;
    var partStart := Find(body, delimiter, pos);
    if partStart == -1 || At(body, partStart, delimiter + "--") then Stop
    else
      var lineEnd := Find(body, CRLF, partStart);
      if lineEnd == -1 then Stop
      else
        var next := Find(body, CRLF + delimiter, lineEnd + 2);
        if next == -1 || next == lineEnd + 2 then Stop
        else ReadPart(body[lineEnd + 2..next], next + 2)
  }

  function Scan(body: string, boundary: string, pos: nat): Outcome
    decreases |body| - pos
  {
    match ScanPart(body, boundary, pos)
    case Stop => Outcome([], true)
    case Hangs => Outcome([], false)
    case Found(field, next) =>
      var later := Scan(body, boundary, next);
      later.(fields := [field] + later.fields)
  }

  function Parsed(body: string, boundary: string): Outcome {
    if body == "" || boundary == "" then Outcome([], true) else Scan(body, boundary, 0)
  }

  class MultipartParser {
    var fields: seq<MultipartField>

    constructor ()
      ensures fields == []
    {
      fields := [];
    }

    method Parse(body: string, boundary: string) returns (r: Result)
      modifies this
      ensures Outcome(fields, r != Diverges) == Parsed(body, boundary)
      ensures r != Diverges ==> (r == Accepted <==> fields != [])
    {
      hide ScanPart;
      fields := [];
      if body == "" || boundary == "" {
        return Rejected;
      }
      var pos := 0;
      while true
        invariant 0 <= pos <= |body|
        invariant Parsed(body, boundary)
               == Outcome(fields + Scan(body, boundary, pos).fields, Scan(body, boundary, pos).terminates)
        decreases |body| - pos
      {
        var step := NextPart(body, boundary, pos);
        match step {
          case Stop => break;
          case Hangs => return Diverges;
          case Found(field, next) =>
            fields := fields + [field];
            pos := next;
        }
      }
      return if fields == [] then Rejected else Accepted;
    }

    method NextPart(body: string, boundary: string, pos: nat) returns (r: Step)
      ensures r == ScanPart(body, boundary, pos)
    {
      hide ReadPart;
      var delimiter := "--" + boundary;
      var partStart := Find(body, delimiter, pos);
      if partStart == -1 || At(body, partStart, delimiter + "--") {
        return Stop;
      }
      var dataStart := Find(body, "\r\n", partStart);
      if dataStart == -1 {
        return Stop;
      }
      dataStart := dataStart + 2;
      var nextBoundary := Find(body, "\r\n" + delimiter, dataStart);
      if nextBoundary == -1 {
        return Stop;
      }
      var rawPart := body[dataStart..nextBoundary];
      if rawPart == "" {
        return Stop;
      }
      r := Split(rawPart, nextBoundary + 2);
    }

    method Split(rawPart: string, next: nat) returns (r: Step)
      ensures r == ReadPart(rawPart, next)
    {
      hide FieldOf, Headers;
      var headerEnd := Find(rawPart, "\r\n\r\n", 0);
      if headerEnd == -1 {
        return Hangs;
      }
      var partBody := rawPart[headerEnd + 4..];
      if |partBody| >= 2 && partBody[|partBody| - 2..] == "\r\n" {
        partBody := partBody[..|partBody| - 2];
      }
      var headers := ParseHeaders(rawPart[..headerEnd]);
      var disposition := Lookup(headers, DISPOSITION);
      if disposition == "" {
        return Hangs;
      }
      return Found(FieldOf(disposition, Lookup(headers, "Content-Type"), partBody), next);
    }

    method ParseHeaders(block: string) returns (headers: map<string, string>)
      ensures headers == Headers(block, 0, map[])
    {
      headers := map[];
      var pos := 0;
      while pos < |block|
        invariant 0 <= pos <= |block|
        invariant Headers(block, 0, map[]) == Headers(block, pos, headers)
      {
        var l := GetLine(block, '\n', pos);
        var line := DropCR(l.text);
        if line == "" {
          break;
        }
        headers := AddHeader(headers, line);
        pos := l.next;
      }
    }
  }

  // ---------- The encoder ----------

  datatype Part = Part(name: string, filename: Option<string>, contentType: Option<string>, data: string)

  function Disposition(p: Part): string {
    "form-data; name=\"" + p.name + "\""
      + match p.filename
        case None => ""
        case Some(f) => "; filename=\"" + f + "\""
  }

  function PartHeaders(p: Part): seq<string> {
    ["Content-Disposition: " + Disposition(p)]
      + match p.contentType
        case None => []
        case Some(t) => ["Content-Type: " + t]
  }

  function Content(p: Part): string {
    Block(PartHeaders(p)) + CRLF + p.data
  }

  /** A part as it stands in a body: what follows the delimiter on its line, and the text up to the
      next delimiter. */
  datatype Delimited = Delimited(padding: string, raw: string)

  /** Parts, each after a delimiter line, then one more delimiter and whatever follows it. */
  function Body(ds: seq<Delimited>, boundary: string, end: string): string {
    if ds == [] then "--" + boundary + end
    else "--" + boundary + ds[0].padding + CRLF + ds[0].raw + CRLF + Body(ds[1..], boundary, end)
  }

  function Contents(parts: seq<Part>): seq<Delimited> {
    if parts == [] then [] else [Delimited("", Content(parts[0]))] + Contents(parts[1..])
  }

  function Encode(parts: seq<Part>, boundary: string, epilogue: string): string {
    Body(Contents(parts), boundary, "--" + epilogue)
  }

  ghost predicate Lacks(s: string, p: string) {
    forall i :: !At(s, i, p)
  }

  /** A delimiter line with this padding is not the closing one, and neither padding nor part runs
      into the next line or part. */
  ghost predicate Proper(d: Delimited, boundary: string) {
    && Lacks(d.padding, CRLF) && !("--" <= d.padding)
    && Lacks(d.raw, CRLF + ("--" + boundary))
  }

  /** No part follows a delimiter with this after it: it is the closing one, or its line has no end,
      or no delimiter comes after that line. */
  predicate Ends(end: string, boundary: string) {
    || "--" <= end
    || Find(end, CRLF, 0) == -1
    || Find(end, CRLF + ("--" + boundary), Find(end, CRLF, 0) + 2) == -1
  }

  ghost predicate Encodable(p: Part, boundary: string) {
    && OneLine(p.name) && Free(p.name, '"')
    && (p.filename.Some? ==> OneLine(p.filename.value) && Free(p.filename.value, '"'))
    && (p.contentType.Some? ==> OneLine(p.contentType.value))
    && Lacks(CRLF + p.data, CRLF + ("--" + boundary))
  }

  // ---------- Boundaries are found where they were put ----------

  /** A delimiter starts with its only carriage return, so it cannot overlap itself. */
  lemma NoEarlyDelimiter(s: string, boundary: string, rest: string, k: nat)
    requires OneLine(boundary) && Lacks(s, CRLF + ("--" + boundary)) && k < |s|
    ensures !At(s + (CRLF + ("--" + boundary)) + rest, k, CRLF + ("--" + boundary))
  {
    var p := CRLF + ("--" + boundary);
    var all := s + p + rest;
    if k + |p| <= |s| {
      assert s[k..k + |p|] == all[k..k + |p|];
      assert !At(s, k, p);
    } else {
      assert all[|s|] == p[0] != p[|s| - k];
      AtChar(all, k, p, |s| - k);
    }
  }

  /** No header line is mistaken for a delimiter. */
  lemma {:induction false} NoDelimiterInBlock(lines: seq<string>, rest: string, k: nat)
    requires HeaderLines(lines) && forall i :: 0 <= i < |lines| ==> lines[i][0] != '-'
    requires k < |Block(lines)|
    ensures var s := Block(lines) + CRLF + rest; s[k] == '\r' ==> s[k + 2] != '-'
  {
    var line, tail := lines[0], lines[1..];
    var here, s' := line + CRLF, Block(tail) + CRLF + rest;
    assert Block(lines) + CRLF + rest == here + s';
    if k >= |here| {
      NoDelimiterInBlock(tail, rest, k - |here|);
    } else if k == |line| {
      assert s'[0] == if tail == [] then '\r' else tail[0][0];
    } else if k < |line| {
      assert (here + s')[k] == line[k];
    }
  }

  // ---------- Reading one part back ----------

  const NAME := "name=\""
  const FILENAME := "filename=\""

  /** A part name that ends like the start of a filename parameter. */
  predicate Trap(name: string) {
    |name| >= 9 && name[|name| - 9..] == "filename="
  }

  /** The filename the parser makes of a part. */
  function ReadFilename(p: Part): string {
    match p.filename
    case None => ""
    case Some(f) => if Trap(p.name) then "; filename=" else f
  }

  function ReadField(p: Part): MultipartField {
    var data := DropCRLF(p.data);
    MultipartField(p.name, FieldValue(ReadFilename(p), data), ReadFilename(p),
                   if p.contentType.None? then "" else p.contentType.value, data)
  }

  const LEAD := "form-data; name=\""

  lemma LeadChars(s: string)
    requires LEAD <= s
    ensures |LEAD| == 17 && s[16] == '"' && s[7] != 'f' && forall i :: 0 <= i < 16 ==> s[i] != '"'
    ensures At(s, 11, NAME)
  {
    assert forall i :: 0 <= i < 17 ==> s[i] == LEAD[i];
    assert s[11..17] == LEAD[11..17] == NAME;
  }

  lemma NameRead(name: string, tail: string)
    requires Free(name, '"')
    ensures Quoted(LEAD + name + "\"" + tail, NAME) == name
  {
    var s := LEAD + name + "\"" + tail;
    LeadChars(s);
    forall i: nat | i < 11 ensures !At(s, i, NAME) {
      AtChar(s, i, NAME, 5);
    }
    assert Find(s, NAME, 0) == 11;
    assert forall i :: 17 <= i < 17 + |name| ==> s[i] == name[i - 17];
    assert s[17 + |name|] == '"';
    assert FindChar(s, '"', 17) == 17 + |name|;
    assert s[17..17 + |name|] == name;
  }

  /** `filename="` can only be found where it ends in a quote with nine quote-free characters
      before it. */
  lemma FilenameAt(s: string, i: nat)
    ensures At(s, i, FILENAME) ==>
              && s[i] == 'f' && s[i + 9] == '"'
              && (forall k :: i <= k < i + 9 ==> s[k] != '"')
              && s[i..i + 9] == "filename="
  {
    if At(s, i, FILENAME) {
      AtChar(s, i, FILENAME, 0);
      AtChar(s, i, FILENAME, 9);
      assert s[i..i + 10][..9] == s[i..i + 9] == FILENAME[..9] == "filename=";
      assert forall k :: i <= k < i + 9 ==> s[k] == s[i..i + 9][k - i];
    }
  }

  lemma NoFilenameInName(name: string, tail: string, i: nat)
    requires Free(name, '"') && i + 9 <= 17 + |name|
    requires i + 9 == 17 + |name| ==> !Trap(name)
    ensures !At(LEAD + name + "\"" + tail, i, FILENAME)
  {
    var s := LEAD + name + "\"" + tail;
    LeadChars(s);
    assert forall k :: 17 <= k < 17 + |name| ==> s[k] == name[k - 17];
    FilenameAt(s, i);
    if i >= 17 && i + 9 == 17 + |name| {
      assert name[|name| - 9..] == s[i..i + 9];
    }
  }

  lemma FilenameAfterTrap(name: string, tail: string)
    requires Free(name, '"') && Trap(name)
    ensures var s := LEAD + name + "\"" + tail;
            Find(s, FILENAME, 0) == |name| + 8 && s[|name| + 18..] == tail
  {
    var s, i := LEAD + name + "\"" + tail, |name| + 8;
    assert s[i..i + 10] == name[|name| - 9..] + "\"" == FILENAME;
    assert At(s, i, FILENAME);
    forall k: nat | k < i ensures !At(s, k, FILENAME) {
      NoFilenameInName(name, tail, k);
    }
  }

  lemma FilenameAfterName(name: string, tail: string)
    requires Free(name, '"') && !Trap(name)
    requires tail == "" || (|tail| >= 12 && tail[..12] == "; " + FILENAME)
    ensures var s := LEAD + name + "\"" + tail;
            if tail == "" then Find(s, FILENAME, 0) == -1
            else Find(s, FILENAME, 0) == |name| + 20 && s[|name| + 30..] == tail[12..]
  {
    var s, q := LEAD + name + "\"" + tail, |name| + 18;
    assert s[q..] == tail;
    forall k: nat | k < q + 2 ensures !At(s, k, FILENAME) {
      if k + 9 < q {
        NoFilenameInName(name, tail, k);
      } else {
        FilenameAt(s, k);
        assert s[q - 1] == '"';
        assert k >= q && tail != "" ==> s[k] == tail[..12][k - q] == ("; " + FILENAME)[k - q];
      }
    }
    if tail != "" {
      assert s[q + 2..q + 12] == tail[..12][2..] == FILENAME;
      assert At(s, q + 2, FILENAME);
      assert s[q + 12..] == tail[12..];
    }
  }

  lemma FilenameRead(p: Part)
    requires Free(p.name, '"') && (p.filename.Some? ==> Free(p.filename.value, '"'))
    ensures Quoted(Disposition(p), FILENAME) == ReadFilename(p)
  {
    hide Find, FindChar, Disposition;
    var tail := DispositionTail(p);
    var s, q := LEAD + p.name + "\"" + tail, |p.name| + 18;
    DispositionText(p);
    assert s[q..] == tail;
    if p.filename.Some? {
      var f := p.filename.value;
      assert tail == "; filename=" + "\"" + (f + "\"");
      if Trap(p.name) {
        FilenameAfterTrap(p.name, tail);
        QuoteEnd(s, q, "; filename=", f + "\"");
      } else {
        assert tail[..12] == "; " + FILENAME && tail[12..] == f + "\"" + "";
        FilenameAfterName(p.name, tail);
        QuoteEnd(s, q + 12, f, "");
      }
    } else if Trap(p.name) {
      FilenameAfterTrap(p.name, tail);
    } else {
      FilenameAfterName(p.name, tail);
    }
  }

  lemma QuoteEnd(s: string, from: nat, text: string, rest: string)
    requires Free(text, '"') && from <= |s| && s[from..] == text + "\"" + rest
    ensures FindChar(s, '"', from) == from + |text| && s[from..from + |text|] == text
  {
    hide FindChar;
    var left := s[from..];
    assert forall i :: 0 <= i <= |text| ==> s[from + i] == left[i];
    assert forall i :: from <= i < from + |text| ==> s[i] == text[i - from];
    assert s[from + |text|] == '"';
  }

  function DispositionTail(p: Part): string {
    match p.filename
    case None => ""
    case Some(f) => "; filename=\"" + f + "\""
  }

  lemma DispositionText(p: Part)
    ensures Disposition(p) == LEAD + p.name + "\"" + DispositionTail(p)
  {
  }

  /** One `key: value` line adds one header. */
  lemma HeaderAdded(headers: map<string, string>, key: string, value: string)
    requires Free(key, ':')
    ensures AddHeader(headers, key + ": " + value) == headers[key := value]
  {
    var line := key + ": " + value;
    assert line[|key|] == ": "[0] && forall i :: 0 <= i < |key| ==> line[i] == key[i];
    assert FindChar(line, ':', 0) == |key|;
    assert line[..|key|] == key && line[|key| + 1..] == " " + value;
    assert (" " + value)[1..] == value;
  }

  lemma LastLineRead(before: string, line: string, headers: map<string, string>)
    requires OneLine(line) && line != ""
    ensures Headers(before + line, |before|, headers) == AddHeader(headers, line)
  {
    hide AddHeader;
    var block := before + line;
    assert forall i :: 0 <= i < |line| ==> block[|before| + i] == line[i];
    var l := GetLine(block, '\n', |before|);
    assert l.text == line && l.next == |block|;
    assert DropCR(line) == line;
  }

  lemma FirstLineRead(line: string, rest: string, headers: map<string, string>)
    requires OneLine(line) && line != ""
    ensures Headers(line + CRLF + rest, 0, headers) == Headers(line + CRLF + rest, |line| + 2, AddHeader(headers, line))
  {
    hide AddHeader;
    var block := line + CRLF + rest;
    assert forall i :: 0 <= i < |line| ==> block[i] == line[i];
    assert block[|line|] == CRLF[0] && block[|line| + 1] == CRLF[1];
    var l := GetLine(block, '\n', 0);
    assert |l.text| == |line| + 1;
    assert l.text == line + "\r";
    assert DropCR(l.text) == line;
  }

  /** The blank line splits a part where the encoder put it. */
  lemma ContentSplit(p: Part, boundary: string)
    requires Encodable(p, boundary)
    ensures HeaderLines(PartHeaders(p))
    ensures var raw, n := Content(p), |Block(PartHeaders(p))|;
            && n >= 3 && Find(raw, BLANK, 0) == n - 2
            && raw[..n - 2] == Block(PartHeaders(p))[..n - 2] && raw[n + 2..] == p.data
  {
    hide Find, Block;
    PartHeadersAreLines(p, boundary);
    BlockEnd(PartHeaders(p), p.data);
  }

  lemma PartHeadersAreLines(p: Part, boundary: string)
    requires Encodable(p, boundary)
    ensures HeaderLines(PartHeaders(p)) && forall i :: 0 <= i < |PartHeaders(p)| ==> PartHeaders(p)[i][0] == 'C'
  {
    hide OneLine;
    OneLineTexts();
    DispositionText(p);
    OneLineAppend(LEAD, p.name);
    OneLineAppend(LEAD + p.name, "\"");
    if p.filename.Some? {
      OneLineAppend("; filename=\"", p.filename.value);
      OneLineAppend("; filename=\"" + p.filename.value, "\"");
    }
    OneLineAppend(LEAD + p.name + "\"", DispositionTail(p));
    OneLineAppend("Content-Disposition: ", Disposition(p));
    if p.contentType.Some? { OneLineAppend("Content-Type: ", p.contentType.value); }
  }

  lemma OneLineTexts()
    ensures OneLine(LEAD) && OneLine("\"") && OneLine("; filename=\"") && OneLine("")
    ensures OneLine("Content-Disposition: ") && OneLine("Content-Type: ")
  {
  }

  function HeaderMap(p: Part): map<string, string> {
    var disposition := map[DISPOSITION := Disposition(p)];
    if p.contentType.None? then disposition else disposition["Content-Type" := p.contentType.value]
  }

  /** The headers of an encoded part are read back. */
  lemma PartHeadersRead(p: Part, boundary: string)
    requires Encodable(p, boundary)
    ensures |Block(PartHeaders(p))| >= 2
    ensures Headers(Block(PartHeaders(p))[..|Block(PartHeaders(p))| - 2], 0, map[]) == HeaderMap(p)
  {
    hide Headers, AddHeader, Disposition;
    PartHeadersAreLines(p, boundary);
    var d := "Content-Disposition: " + Disposition(p);
    assert d == PartHeaders(p)[0];
    KeysAreFree();
    HeaderAdded(map[], DISPOSITION, Disposition(p));
    assert d == DISPOSITION + ": " + Disposition(p);
    if p.contentType.None? {
      assert Block([d]) == d + CRLF + Block([]);
      assert Block([d])[..|d|] == "" + d;
      LastLineRead("", d, map[]);
    } else {
      var t := "Content-Type: " + p.contentType.value;
      assert t == PartHeaders(p)[1];
      TwoLines(d, t);
      FirstLineRead(d, t, map[]);
      LastLineRead(d + CRLF, t, map[DISPOSITION := Disposition(p)]);
      HeaderAdded(map[DISPOSITION := Disposition(p)], "Content-Type", p.contentType.value);
      assert t == "Content-Type" + ": " + p.contentType.value;
    }
  }

  /** An empty line ends a header block, whether CRLF or a line feed ends it; nothing after it is read. */
  lemma EmptyLineEndsHeaders(before: string, rest: string, headers: map<string, string>)
    ensures Headers(before + ("\n" + rest), |before|, headers) == headers
    ensures Headers(before + (CRLF + rest), |before|, headers) == headers
  {
    hide FindChar;
    var a, b := before + ("\n" + rest), before + (CRLF + rest);
    assert a[|before|] == "\n"[0] && b[|before|] == CRLF[0] && b[|before| + 1] == CRLF[1];
    assert GetLine(a, '\n', |before|).text == "";
    assert GetLine(b, '\n', |before|).text == "\r";
  }

  lemma KeysAreFree()
    ensures Free(DISPOSITION, ':') && Free("Content-Type", ':')
  {
  }

  lemma TwoLines(d: string, t: string)
    ensures |Block([d, t])| == |d| + |t| + 4 && Block([d, t])[..|d| + 2 + |t|] == d + CRLF + t
  {
    assert [d, t][1..] == [t] && [t][1..] == [];
    assert Block([t]) == t + CRLF + Block([]);
    assert Block([d, t]) == d + CRLF + Block([t]);
  }

  /** What the parser makes of an encoded part. */
  lemma PartRead(p: Part, boundary: string)
    requires Encodable(p, boundary)
    ensures Readable(Content(p)) && PartField(Content(p)) == ReadField(p)
  {
    hide Content, Block, Headers, Find, Quoted, PartHeaders, Disposition, FieldValue, DropCRLF;
    ContentSplit(p, boundary);
    PartHeadersRead(p, boundary);
    NameAndFilename(p);
  }

  lemma NameAndFilename(p: Part)
    requires Free(p.name, '"') && (p.filename.Some? ==> Free(p.filename.value, '"'))
    ensures Disposition(p) != ""
    ensures Quoted(Disposition(p), NAME) == p.name && Quoted(Disposition(p), FILENAME) == ReadFilename(p)
  {
    hide Quoted;
    DispositionText(p);
    NameRead(p.name, DispositionTail(p));
    FilenameRead(p);
  }

  // ---------- The whole body ----------

  /** No boundary is seen before the end of a part's content. */
  lemma ContentHasNoDelimiter(p: Part, boundary: string, rest: string, k: nat)
    requires OneLine(boundary) && Encodable(p, boundary) && k < |Content(p)|
    ensures !At(Content(p) + (CRLF + ("--" + boundary)) + rest, k, CRLF + ("--" + boundary))
  {
    hide Block;
    var d, head := CRLF + ("--" + boundary), Block(PartHeaders(p));
    var all := Content(p) + d + rest;
    PartHeadersAreLines(p, boundary);
    if k < |head| {
      NoDelimiterInBlock(PartHeaders(p), p.data + d + rest, k);
      assert all == head + CRLF + (p.data + d + rest);
      AtChar(all, k, d, 0);
      AtChar(all, k, d, 2);
      assert d[2] == '-';
    } else {
      NoEarlyDelimiter(CRLF + p.data, boundary, rest, k - |head|);
      assert all == head + (CRLF + p.data + d + rest);
      AtShift(head, CRLF + p.data + d + rest, k - |head|, d);
    }
  }

  lemma ContentLacks(p: Part, boundary: string)
    requires OneLine(boundary) && Encodable(p, boundary)
    ensures Content(p) != "" && Lacks(Content(p), CRLF + ("--" + boundary))
  {
    hide Content, Encodable;
    var c, d := Content(p), CRLF + ("--" + boundary);
    forall i ensures !At(c, i, d) {
      if At(c, i, d) {
        assert (c + d + "")[i..i + |d|] == c[i..i + |d|];
        ContentHasNoDelimiter(p, boundary, "", i);
      }
    }
    ContentNotEmpty(p);
  }

  lemma ContentNotEmpty(p: Part)
    ensures Content(p) != ""
  {
  }

  /** The remaining body when a part comes next. */
  lemma BodyStep(ds: seq<Delimited>, boundary: string, end: string) returns (more: string)
    requires ds != []
    ensures Body(ds, boundary, end)
         == "--" + boundary + ds[0].padding + CRLF + (ds[0].raw + (CRLF + ("--" + boundary)) + more)
    ensures "--" + boundary + more == Body(ds[1..], boundary, end)
  {
    var d, rest := "--" + boundary, Body(ds[1..], boundary, end);
    more := BodyStarts(ds[1..], boundary, end);
    hide Body;
    assert BodyOfCons(ds, boundary, rest) == d + ds[0].padding + CRLF + (ds[0].raw + (CRLF + d) + more) by {
      Assoc(ds[0].raw, CRLF, rest);
      Assoc(CRLF, d, more);
      Assoc(ds[0].raw, CRLF + d, more);
      Assoc(d + ds[0].padding + CRLF, ds[0].raw, CRLF + rest);
      Assoc(d + ds[0].padding + CRLF + ds[0].raw, CRLF, rest);
    }
    BodyCons(ds, boundary, end);
  }

  function BodyOfCons(ds: seq<Delimited>, boundary: string, rest: string): string
    requires ds != []
  {
    "--" + boundary + ds[0].padding + CRLF + ds[0].raw + CRLF + rest
  }

  lemma BodyCons(ds: seq<Delimited>, boundary: string, end: string)
    requires ds != []
    ensures Body(ds, boundary, end) == BodyOfCons(ds, boundary, Body(ds[1..], boundary, end))
  {
  }

  lemma DelimiterLine(before: string, boundary: string, padding: string, rest: string)
    requires OneLine(boundary) && Lacks(padding, CRLF) && !("--" <= padding)
    ensures var delimiter := "--" + boundary; var body := before + (delimiter + padding + CRLF + rest);
            && Find(body, delimiter, |before|) == |before|
            && !At(body, |before|, delimiter + "--")
            && Find(body, CRLF, |before|) == |before| + |delimiter| + |padding|
  {
    hide Find, At, OneLine, Lacks;
    var delimiter := "--" + boundary;
    assert delimiter + padding + CRLF + rest == delimiter + (padding + CRLF + rest);
    AtAfter(before, delimiter, padding + CRLF + rest);
    NotClosing(delimiter, padding, rest);
    AtShift(before, delimiter + padding + CRLF + rest, 0, delimiter + "--");
    NoCRLFInLine(boundary, padding, rest);
    FoundAfter(before, delimiter + padding, CRLF, rest);
  }

  lemma NotClosing(delimiter: string, padding: string, rest: string)
    ensures At(delimiter + padding + CRLF + rest, 0, delimiter + "--") ==> "--" <= padding
  {
    var s, n := delimiter + padding + CRLF + rest, |delimiter|;
    AtChar(s, 0, delimiter + "--", n);
    AtChar(s, 0, delimiter + "--", n + 1);
    assert (delimiter + "--")[n] == '-' && (delimiter + "--")[n + 1] == '-';
    var line := padding + CRLF;
    assert s[n] == line[0] && s[n + 1] == line[1] && line[|padding|] == '\r';
    assert line[0] == '-' && line[1] == '-' ==> padding[..2] == "--";
  }

  lemma NoCRLFInLine(boundary: string, padding: string, rest: string)
    requires OneLine(boundary) && Lacks(padding, CRLF)
    ensures forall k: nat :: k < |"--" + boundary + padding| ==> !At("--" + boundary + padding + CRLF + rest, k, CRLF)
  {
    hide At, Lacks;
    var delimiter := "--" + boundary;
    var s, n := delimiter + padding + CRLF + rest, |delimiter|;
    forall k: nat | k < |delimiter + padding| ensures !At(s, k, CRLF) {
      if k < n {
        assert s[k] == delimiter[k];
        AtChar(s, k, CRLF, 0);
      } else {
        assert s == delimiter + (padding + CRLF + rest);
        AtShift(delimiter, padding + CRLF + rest, k - n, CRLF);
        NoCRLFInPadding(padding, rest, k - n);
      }
    }
  }

  lemma NoCRLFInPadding(padding: string, rest: string, k: nat)
    requires Lacks(padding, CRLF) && k < |padding|
    ensures !At(padding + CRLF + rest, k, CRLF)
  {
    var s := padding + CRLF + rest;
    if k + 2 <= |padding| {
      assert s[k..k + 2] == padding[k..k + 2];
      assert !At(padding, k, CRLF);
    } else {
      AtChar(s, k, CRLF, 1);
      assert s[|padding|] == CRLF[0];
    }
  }

  lemma NextDelimiter(before: string, raw: string, boundary: string, more: string)
    requires OneLine(boundary) && Lacks(raw, CRLF + ("--" + boundary))
    ensures var d := CRLF + ("--" + boundary); var body := before + (raw + d + more);
            && Find(body, d, |before|) == |before| + |raw|
            && body[|before|..|before| + |raw|] == raw
  {
    hide Lacks, At, Find;
    var d := CRLF + ("--" + boundary);
    forall k: nat | k < |raw| ensures !At(raw + d + more, k, d) {
      NoEarlyDelimiter(raw, boundary, more, k);
    }
    FoundAfter(before, raw, d, more);
    Assoc(raw, d, more);
    Slice(before, raw, d + more);
  }

  /** One iteration reads one part and moves on to the next delimiter line. */
  lemma RawPartScanned(before: string, d: Delimited, boundary: string, more: string)
    requires OneLine(boundary) && Proper(d, boundary)
    ensures var line := "--" + boundary + d.padding + CRLF;
            var body := before + (line + (d.raw + (CRLF + ("--" + boundary)) + more));
            ScanPart(body, boundary, |before|)
            == if d.raw == "" then Stop else ReadPart(d.raw, |before| + |line| + |d.raw| + 2)
  {
    hide ReadPart, Find, At, Lacks, OneLine;
    var line := "--" + boundary + d.padding + CRLF;
    var rest := d.raw + (CRLF + ("--" + boundary)) + more;
    DelimiterLine(before, boundary, d.padding, rest);
    Assoc(before, line, rest);
    NextDelimiter(before + line, d.raw, boundary, more);
  }

  lemma EndScanned(before: string, boundary: string, end: string)
    requires OneLine(boundary) && Ends(end, boundary)
    ensures ScanPart(before + Body([], boundary, end), boundary, |before|) == Stop
  {
    hide Find, At, ReadPart, OneLine;
    var delimiter := "--" + boundary;
    var body := before + (delimiter + end);
    AtAfter(before, delimiter, end);
    if "--" <= end {
      assert delimiter + end == delimiter + "--" + end[2..];
      Assoc(delimiter, "--", end[2..]);
      AtAfter(before, delimiter + "--", end[2..]);
    } else {
      NoCRLFInDelimiter(before, boundary, end);
      Assoc(before, delimiter, end);
      FindSkip(body, CRLF, |before|, |before + delimiter|);
      FindShift(before + delimiter, end, CRLF, 0);
      if Find(end, CRLF, 0) != -1 {
        FindShift(before + delimiter, end, CRLF + delimiter, Find(end, CRLF, 0) + 2);
      }
    }
  }

  lemma NoCRLFInDelimiter(before: string, boundary: string, end: string)
    requires OneLine(boundary)
    ensures var n := |before|; var body := before + ("--" + boundary + end);
            forall k: nat :: n <= k < n + |"--" + boundary| ==> !At(body, k, CRLF)
  {
    hide At;
    var n, delimiter := |before|, "--" + boundary;
    var body := before + (delimiter + end);
    forall k: nat | n <= k < n + |delimiter| ensures !At(body, k, CRLF) {
      assert body[k] == delimiter[k - n];
      AtChar(body, k, CRLF, 0);
    }
  }

  /** What the loop makes of the parts of a body: an empty part ends it, an unreadable one
      keeps it going for ever. */
  function Walk(ds: seq<Delimited>): Outcome {
    if ds == [] || ds[0].raw == "" then Outcome([], true)
    else if !Readable(ds[0].raw) then Outcome([], false)
    else
      var later := Walk(ds[1..]);
      later.(fields := [PartField(ds[0].raw)] + later.fields)
  }

  lemma {:induction false} BodyScanned(before: string, ds: seq<Delimited>, boundary: string, end: string)
    requires OneLine(boundary) && Ends(end, boundary) && forall d <- ds :: Proper(d, boundary)
    ensures Scan(before + Body(ds, boundary, end), boundary, |before|) == Walk(ds)
    decreases |ds|
  {
    hide ScanPart, Body, Readable, PartField, Proper, Ends, OneLine;
    if ds == [] {
      EndScanned(before, boundary, end);
    } else {
      var d, line := ds[0], "--" + boundary + ds[0].padding + CRLF;
      var more := BodyStep(ds, boundary, end);
      RawPartScanned(before, d, boundary, more);
      var before', rest := before + line + d.raw + CRLF, Body(ds[1..], boundary, end);
      assert before + Body(ds, boundary, end) == before' + rest by {
        assert d.raw + (CRLF + ("--" + boundary)) + more == d.raw + CRLF + rest;
      }
      if d.raw != "" && Readable(d.raw) {
        BodyScanned(before', ds[1..], boundary, end);
      }
    }
  }

  /** The first delimiter is the one after the preamble. */
  predicate Preamble(preamble: string, boundary: string) {
    Find(preamble + ("--" + boundary), "--" + boundary, 0) == |preamble|
  }

  lemma PreambleSkipped(preamble: string, boundary: string, rest: string)
    requires Preamble(preamble, boundary)
    ensures var body, d := preamble + ("--" + boundary + rest), "--" + boundary;
            Find(body, d, 0) == Find(body, d, |preamble|) == |preamble|
  {
    hide Find, At;
    var d := "--" + boundary;
    var body := preamble + (d + rest);
    assert body == preamble + d + rest;
    AtAfter(preamble, d, rest);
    forall k: nat | k < |preamble| ensures !At(body, k, d) {
      SameBefore(preamble + d, rest, k, d);
    }
    FindSkip(body, d, 0, |preamble|);
    var r := Find(body, d, |preamble|);
    assert r == |preamble|;
  }

  lemma SameBefore(s: string, rest: string, k: nat, p: string)
    requires k + |p| <= |s|
    ensures At(s + rest, k, p) <==> At(s, k, p)
  {
    assert (s + rest)[k..k + |p|] == s[k..k + |p|];
  }

  lemma BodyStarts(ds: seq<Delimited>, boundary: string, end: string) returns (rest: string)
    ensures Body(ds, boundary, end) == "--" + boundary + rest
  {
    if ds == [] {
      rest := end;
    } else {
      rest := ds[0].padding + CRLF + ds[0].raw + CRLF + Body(ds[1..], boundary, end);
    }
  }

  lemma BodyParsed(preamble: string, ds: seq<Delimited>, boundary: string, end: string)
    requires boundary != "" && OneLine(boundary) && Preamble(preamble, boundary) && Ends(end, boundary)
    requires forall d <- ds :: Proper(d, boundary)
    ensures Parsed(preamble + Body(ds, boundary, end), boundary) == Walk(ds)
  {
    hide Walk, Body, Preamble, Ends, Proper, OneLine;
    BodyScanned(preamble, ds, boundary, end);
    var rest := BodyStarts(ds, boundary, end);
    PreambleSkipped(preamble, boundary, rest);
    SameScan(preamble + Body(ds, boundary, end), boundary, |preamble|);
    assert preamble + Body(ds, boundary, end) != "";
  }

  lemma SameScan(body: string, boundary: string, pos: nat)
    requires Find(body, "--" + boundary, 0) == Find(body, "--" + boundary, pos)
    ensures Scan(body, boundary, 0) == Scan(body, boundary, pos)
  {
    hide Find, At, ReadPart;
    assert ScanPart(body, boundary, 0) == ScanPart(body, boundary, pos);
    hide ScanPart;
  }

  function ReadFields(parts: seq<Part>): seq<MultipartField> {
    if parts == [] then [] else [ReadField(parts[0])] + ReadFields(parts[1..])
  }

  lemma {:induction false} ContentsRead(parts: seq<Part>, boundary: string)
    requires OneLine(boundary) && forall i :: 0 <= i < |parts| ==> Encodable(parts[i], boundary)
    ensures Walk(Contents(parts)) == Outcome(ReadFields(parts), true)
    ensures forall d <- Contents(parts) :: Proper(d, boundary)
  {
    hide Readable, PartField, ReadField, Content, Encodable, Lacks;
    if parts != [] {
      PartRead(parts[0], boundary);
      ContentLacks(parts[0], boundary);
      NothingHasNoCRLF();
      ContentsRead(parts[1..], boundary);
      assert Contents(parts)[1..] == Contents(parts[1..]);
    }
  }

  lemma NothingHasNoCRLF()
    ensures Lacks("", CRLF)
  {
  }

  /** Parsing an encoded body terminates and yields every part, in order; the only departures
      from what was encoded are the ones `ReadField` names. */
  lemma EncodeParse(parts: seq<Part>, boundary: string, epilogue: string)
    requires boundary != "" && OneLine(boundary)
    requires forall i :: 0 <= i < |parts| ==> Encodable(parts[i], boundary)
    ensures Parsed(Encode(parts, boundary, epilogue), boundary) == Outcome(ReadFields(parts), true)
  {
    hide Walk, ReadFields, Encodable, Parsed, Proper, Ends, Preamble, Body, Contents, OneLine;
    ContentsRead(parts, boundary);
    NoPreamble(boundary);
    ClosingEnds(boundary, epilogue);
    BodyParsed("", Contents(parts), boundary, "--" + epilogue);
    assert "" + Encode(parts, boundary, epilogue) == Encode(parts, boundary, epilogue);
  }

  lemma ClosingEnds(boundary: string, epilogue: string)
    ensures Ends("--" + epilogue, boundary)
  {
  }

  lemma NoPreamble(boundary: string)
    ensures Preamble("", boundary)
  {
    var d := "--" + boundary;
    assert "" + d == d && d[0..|d|] == d;
  }

  function Given(o: Option<string>): string {
    match o
    case None => ""
    case Some(v) => v
  }

  /** The field carries what the part carried; its value is the data or, for a file, a note of the
      file's name and size. */
  predicate Recovers(f: MultipartField, p: Part) {
    && f.name == p.name && f.filename == Given(p.filename)
    && f.contentType == Given(p.contentType) && f.data == p.data
    && f.value == if Given(p.filename) == "" then p.data
                  else "(file: " + Given(p.filename) + ", " + Decimal(|p.data|) + " bytes)"
  }

  predicate EndsInCRLF(data: string) {
    |data| >= 2 && data[|data| - 2..] == CRLF
  }

  /** A file whose part name ends in `filename=` is given the wrong filename (unless that is the
      very text the parser reads instead). */
  predicate FilenameLost(p: Part) {
    p.filename.Some? && Trap(p.name) && p.filename.value != "; filename="
  }

  lemma {:induction false} FieldsInOrder(parts: seq<Part>)
    ensures |ReadFields(parts)| == |parts|
    ensures forall i :: 0 <= i < |parts| ==> ReadFields(parts)[i] == ReadField(parts[i])
  {
    hide ReadField;
    if parts != [] { FieldsInOrder(parts[1..]); }
  }

  /** The round trip: names, filenames, content types and data all come back, in order, if and
      only if no data ends in CRLF and no part falls into the filename trap. */
  lemma RoundTrip(parts: seq<Part>, boundary: string, epilogue: string)
    requires boundary != "" && OneLine(boundary)
    requires forall i :: 0 <= i < |parts| ==> Encodable(parts[i], boundary)
    ensures var fields := Parsed(Encode(parts, boundary, epilogue), boundary).fields;
            && |fields| == |parts|
            && ((forall i :: 0 <= i < |parts| ==> Recovers(fields[i], parts[i]))
                <==> forall i :: 0 <= i < |parts| ==> !EndsInCRLF(parts[i].data) && !FilenameLost(parts[i]))
  {
    hide Encodable, Encode, Parsed;
    EncodeParse(parts, boundary, epilogue);
    FieldsInOrder(parts);
    forall i | 0 <= i < |parts|
      ensures Recovers(ReadFields(parts)[i], parts[i]) <==> !EndsInCRLF(parts[i].data) && !FilenameLost(parts[i])
    {
      assert |DropCRLF(parts[i].data)| == |parts[i].data| <==> !EndsInCRLF(parts[i].data);
    }
  }

  // ---------- When parsing terminates ----------

  /** No part up to the n-th is empty: the loop gets there unless it is caught before. */
  predicate Reached(ds: seq<Delimited>, n: nat) {
    n < |ds| && forall i :: 0 <= i <= n ==> ds[i].raw != ""
  }

  lemma {:induction false} WalkEnds(ds: seq<Delimited>)
    ensures var r := Walk(ds); var n := |r.fields|;
            && n <= |ds| && (forall i :: 0 <= i < n ==> Readable(ds[i].raw) && r.fields[i] == PartField(ds[i].raw))
            && (forall i :: 0 <= i < n ==> ds[i].raw != "")
            && if r.terminates then n == |ds| || ds[n].raw == "" else Reached(ds, n) && !Readable(ds[n].raw)
  {
    hide Readable, PartField;
    if ds != [] && ds[0].raw != "" && Readable(ds[0].raw) {
      WalkEnds(ds[1..]);
      var r, later := Walk(ds), Walk(ds[1..]);
      assert r.fields == [PartField(ds[0].raw)] + later.fields;
      assert forall i :: 0 < i < |ds| ==> ds[i] == ds[1..][i - 1];
    }
  }

  /** Parsing any body with a delimiter terminates if and only if every part it gets to, that is,
      every part before the first empty one, can be read. The fields found are those of the
      parts before the one where it ends or hangs. */
  lemma TerminatesExactlyWhen(preamble: string, ds: seq<Delimited>, end: string, boundary: string)
    requires boundary != "" && OneLine(boundary) && Preamble(preamble, boundary) && Ends(end, boundary)
    requires forall d <- ds :: Proper(d, boundary)
    ensures var r := Parsed(preamble + Body(ds, boundary, end), boundary);
            && (r.terminates <==> forall n: nat :: Reached(ds, n) ==> Readable(ds[n].raw))
            && |r.fields| <= |ds|
            && (forall i :: 0 <= i < |r.fields| ==> Readable(ds[i].raw) && r.fields[i] == PartField(ds[i].raw))
            && (r.terminates && (forall d <- ds :: d.raw != "") ==> |r.fields| == |ds|)
  {
    hide Walk, Readable, PartField, Parsed, Proper, OneLine, Preamble, Ends;
    BodyParsed(preamble, ds, boundary, end);
    WalkEnds(ds);
    var r := Walk(ds);
    if r.terminates {
      forall n: nat | Reached(ds, n) ensures Readable(ds[n].raw) {
        assert n < |r.fields|;
      }
      if |r.fields| < |ds| {
        assert ds[|r.fields|] in ds;
      }
    }
  }

  /** Every body with a delimiter has the shape that the theorem speaks of ... */
  lemma EveryBodyDivides(body: string, boundary: string)
    returns (preamble: string, ds: seq<Delimited>, end: string)
    requires Find(body, "--" + boundary, 0) != -1
    ensures body == preamble + Body(ds, boundary, end)
    ensures Preamble(preamble, boundary) && Ends(end, boundary) && forall d <- ds :: Proper(d, boundary)
  {
    hide Find, Proper, Ends, Body;
    var d := "--" + boundary;
    var rest;
    preamble, rest := CutAt(body, d);
    FirstDelimiter(preamble, d, rest);
    ds, end := Divided(d + rest, boundary);
    Assoc(preamble, d, rest);
  }

  lemma CutAt(body: string, d: string) returns (before: string, rest: string)
    requires Find(body, d, 0) != -1
    ensures body == before + d + rest && |before| == Find(body, d, 0)
  {
    hide Find;
    var start := Find(body, d, 0);
    before, rest := body[..start], body[start + |d|..];
    assert body == body[..start] + body[start..start + |d|] + body[start + |d|..];
  }

  lemma FirstDelimiter(preamble: string, d: string, rest: string)
    requires Find(preamble + d + rest, d, 0) == |preamble|
    ensures Find(preamble + d, d, 0) == |preamble|
  {
    hide Find, At;
    var s, start := preamble + d, |preamble|;
    var r := Find(s, d, 0);
    SameBefore(s, rest, start, d);
    assert r != -1 && r <= start;
    FoundInside(s, d, r);
    SameBefore(s, rest, r, d);
  }

  lemma FoundInside(s: string, p: string, i: nat)
    requires At(s, i, p)
    ensures i + |p| <= |s|
  {
  }

  lemma {:induction false} Divided(s: string, boundary: string) returns (ds: seq<Delimited>, end: string)
    requires "--" + boundary <= s
    ensures s == Body(ds, boundary, end) && Ends(end, boundary) && forall d <- ds :: Proper(d, boundary)
    decreases |s|
  {
    var d := "--" + boundary;
    var rest := s[|d|..];
    if Ends(rest, boundary) {
      ds, end := [], rest;
    } else {
      var first, more := Cut(rest, boundary);
      var later;
      hide Ends, Proper;
      later, end := Divided(more, boundary);
      ds := [first] + later;
      assert ds[1..] == later;
    }
  }

  /** A line and a part cut off in front of the next delimiter. */
  lemma Cut(rest: string, boundary: string) returns (d: Delimited, more: string)
    requires !Ends(rest, boundary)
    ensures Proper(d, boundary) && "--" + boundary <= more && |more| < |rest|
    ensures rest == d.padding + CRLF + d.raw + CRLF + more
  {
    hide Find, At;
    var p := CRLF + ("--" + boundary);
    var line := Find(rest, CRLF, 0);
    var next := Find(rest, p, line + 2);
    AtText(rest, line, CRLF);
    AtText(rest, next, p);
    var padding, raw := rest[..line], rest[line + 2..next];
    d, more := Delimited(padding, raw), rest[next + 2..];
    assert more[..|p| - 2] == p[2..];
    LacksBefore(rest, CRLF, 0, line);
    LacksBefore(rest, p, line + 2, next);
    assert rest[0..line] == padding;
    PrefixOf("--", padding, rest);
  }

  lemma PrefixOf(a: string, b: string, c: string)
    requires b <= c
    ensures a <= b ==> a <= c
  {
  }

  lemma AtText(s: string, i: int, p: string)
    requires At(s, i, p)
    ensures 0 <= i && i + |p| <= |s| && s[i..i + |p|] == p
  {
  }

  /** What comes before a first occurrence has none. */
  lemma LacksBefore(s: string, p: string, from: nat, to: nat)
    requires from <= to <= |s| && p != "" && forall k: nat :: from <= k < to ==> !At(s, k, p)
    ensures Lacks(s[from..to], p)
  {
    var t := s[from..to];
    forall i ensures !At(t, i, p) {
      if 0 <= i && i + |p| <= |t| {
        assert !At(s, from + i, p);
        SliceOfSlice(s, from, to, i, i + |p|);
      }
    }
  }

  lemma SliceOfSlice(s: string, from: nat, to: nat, i: nat, j: nat)
    requires i <= j && from + j <= to <= |s|
    ensures s[from..to][i..j] == s[from + i..from + j]
  {
    var a, b := s[from..to][i..j], s[from + i..from + j];
    assert forall k :: 0 <= k < j - i ==> a[k] == s[from..to][i + k] == s[from + i + k] == b[k];
    assert a == b;
  }

  /** ... and one without a delimiter gives no fields and terminates. */
  lemma NoDelimiterNoFields(body: string, boundary: string)
    requires Find(body, "--" + boundary, 0) == -1
    ensures Parsed(body, boundary) == Outcome([], true)
  {
    hide Find;
  }

  /** So one part without a Content-Disposition, wherever it stands, keeps the loop going for
      ever: the iteration that skips it is repeated unchanged ... */
  lemma HangsWithoutDisposition(preamble: string, ds: seq<Delimited>, end: string, boundary: string, n: nat)
    requires boundary != "" && OneLine(boundary) && Preamble(preamble, boundary) && Ends(end, boundary)
    requires forall d <- ds :: Proper(d, boundary)
    requires Reached(ds, n) && Find(ds[n].raw, BLANK, 0) != -1
    requires Lookup(Headers(ds[n].raw[..Find(ds[n].raw, BLANK, 0)], 0, map[]), DISPOSITION) == ""
    ensures !Parsed(preamble + Body(ds, boundary, end), boundary).terminates
  {
    hide Find, Headers, Proper, Preamble, Ends, Parsed;
    TerminatesExactlyWhen(preamble, ds, end, boundary);
  }

  /** ... and so does one without a blank line. */
  lemma HangsWithoutBlankLine(preamble: string, ds: seq<Delimited>, end: string, boundary: string, n: nat)
    requires boundary != "" && OneLine(boundary) && Preamble(preamble, boundary) && Ends(end, boundary)
    requires forall d <- ds :: Proper(d, boundary)
    requires Reached(ds, n) && Find(ds[n].raw, BLANK, 0) == -1
    ensures !Parsed(preamble + Body(ds, boundary, end), boundary).terminates
  {
    hide Find, Proper, Preamble, Ends, Parsed;
    TerminatesExactlyWhen(preamble, ds, end, boundary);
  }

  // ---------- The boundary parameter ----------

  /** Trailing blanks, semicolons and carriage returns removed. */
  function TrimEnd(s: string): (r: string)
    ensures r <= s
  {
    if s != "" && s[|s| - 1] in " ;\r" then TrimEnd(s[..|s| - 1]) else s
  }

  function Unquoted(s: string): string {
    var t := if s != "" && s[0] == '"' then s[1..] else s;
    if t != "" && t[|t| - 1] == '"' then t[..|t| - 1] else t
  }

  function BoundaryOf(contentType: string): string {
    var pos := Find(contentType, "boundary=", 0);
    if pos == -1 then "" else TrimEnd(Unquoted(contentType[pos + 9..]))
  }

  method ExtractBoundary(contentType: string) returns (boundary: string)
    ensures boundary == BoundaryOf(contentType)
  {
    hide Find;
    var pos := Find(contentType, "boundary=", 0);
    if pos == -1 {
      return "";
    }
    boundary := contentType[pos + 9..];
    if boundary != "" && boundary[0] == '"' {
      boundary := boundary[1..];
    }
    if boundary != "" && boundary[|boundary| - 1] == '"' {
      boundary := boundary[..|boundary| - 1];
    }
    ghost var unquoted := Unquoted(contentType[pos + 9..]);
    assert boundary == unquoted;
    while boundary != "" && boundary[|boundary| - 1] in " ;\r"
      invariant TrimEnd(unquoted) == TrimEnd(boundary)
      decreases |boundary|
    {
      boundary := boundary[..|boundary| - 1];
    }
  }

  predicate Trimmable(s: string) {
    forall i :: 0 <= i < |s| ==> s[i] in " ;\r"
  }

  /** What may follow a boundary: blanks, semicolons and carriage returns, and one last quote. */
  predicate Trailer(after: string) {
    Trimmable(if after != "" && after[|after| - 1] == '"' then after[..|after| - 1] else after)
  }

  /** What is extracted is the boundary exactly when only blanks, semicolons and carriage returns
      follow it, and then perhaps a quote, and it does not itself start with a quote, or end with
      one of those characters, or, at the end of the header, with a quote. */
  lemma BoundaryExtracted(before: string, boundary: string, after: string)
    requires boundary != "" && (boundary[0] != '"' || after == "")
    requires forall k: nat :: k < |before| ==> !At(before + "boundary=" + (boundary + after), k, "boundary=")
    ensures BoundaryOf(before + "boundary=" + (boundary + after)) == boundary
       <==> && boundary[0] != '"' && boundary[|boundary| - 1] !in " ;\r"
            && (boundary[|boundary| - 1] == '"' ==> after != "")
            && Trailer(after)
  {
    hide Find, At, TrimEnd, Unquoted, Trailer;
    ParameterFound(before, boundary + after);
    if boundary[0] == '"' {
      assert boundary + after == boundary;
      QuoteDropped(boundary);
    } else {
      KeptWhole(boundary, after);
    }
  }

  lemma ParameterFound(before: string, value: string)
    requires forall k: nat :: k < |before| ==> !At(before + "boundary=" + value, k, "boundary=")
    ensures BoundaryOf(before + "boundary=" + value) == TrimEnd(Unquoted(value))
  {
    hide Find, At, TrimEnd, Unquoted;
    FoundAfter("", before, "boundary=", value);
    var s := before + "boundary=" + value;
    assert "" + s == s && s[|before| + 9..] == value;
  }

  lemma QuoteDropped(s: string)
    requires s != "" && s[0] == '"'
    ensures |TrimEnd(Unquoted(s))| < |s|
  {
  }

  lemma {:induction false} TrimEndIs(s: string, kept: string)
    requires kept != "" && kept <= s
    ensures TrimEnd(s) == kept <==> kept[|kept| - 1] !in " ;\r" && Trimmable(s[|kept|..])
    decreases |s|
  {
    var rest, last := s[|kept|..], s[|s| - 1];
    if rest == "" {
      assert s == kept;
    } else {
      assert rest[|rest| - 1] == last;
      if last in " ;\r" {
        TrimEndIs(s[..|s| - 1], kept);
        assert rest == s[..|s| - 1][|kept|..] + [last];
      }
    }
  }

  lemma KeptWhole(boundary: string, after: string)
    requires boundary != "" && boundary[0] != '"'
    ensures TrimEnd(Unquoted(boundary + after)) == boundary
       <==> && boundary[|boundary| - 1] !in " ;\r"
            && (boundary[|boundary| - 1] == '"' ==> after != "")
            && Trailer(after)
  {
    var s := boundary + after;
    var n := |s| - 1;
    assert s[n] == if after == "" then boundary[n] else after[|after| - 1];
    var t := Unquoted(s);
    if s[n] == '"' {
      assert t == s[..n];
      if after != "" {
        assert t == boundary + after[..|after| - 1];
        TrimEndIs(t, boundary);
        assert t[|boundary|..] == after[..|after| - 1];
      }
    } else {
      assert t == s;
      TrimEndIs(t, boundary);
      assert t[|boundary|..] == after;
    }
  }

  /** A quoted boundary is extracted exactly when nothing at all follows the closing quote, and the
      boundary ends in no blank, semicolon or carriage return. */
  lemma QuotedBoundaryExtracted(before: string, boundary: string, after: string)
    requires boundary != ""
    requires forall k: nat :: k < |before| ==>
               !At(before + "boundary=" + ("\"" + boundary + "\"" + after), k, "boundary=")
    ensures BoundaryOf(before + "boundary=" + ("\"" + boundary + "\"" + after)) == boundary
       <==> after == "" && boundary[|boundary| - 1] !in " ;\r"
  {
    hide Find, At, TrimEnd, Unquoted;
    ParameterFound(before, "\"" + boundary + "\"" + after);
    UnquotedQuoted(boundary, after);
    if after == "" {
      TrimEndIs(boundary, boundary);
      assert boundary[|boundary|..] == "";
    } else {
      var t := Unquoted("\"" + boundary + "\"" + after);
      QuoteStays(boundary, t);
    }
  }

  lemma UnquotedQuoted(s: string, after: string)
    ensures Unquoted("\"" + s + "\"" + after)
         == if after == "" then s
            else s + "\"" + if after[|after| - 1] == '"' then after[..|after| - 1] else after
  {
    var quoted := "\"" + s + "\"" + after;
    assert quoted[1..] == s + "\"" + after;
    if after == "" {
      assert (s + "\"" + after)[..|s|] == s;
    } else {
      var t := s + "\"" + after;
      assert t[|t| - 1] == after[|after| - 1];
      assert t[..|t| - 1] == s + "\"" + after[..|after| - 1];
    }
  }

  lemma QuoteStays(s: string, t: string)
    requires s + "\"" <= t && s != ""
    ensures TrimEnd(t) != s
  {
    TrimEndIs(t, s);
    assert t[|s|..][0] == (s + "\"")[|s|] == '"';
  }
}
