/** A recipient's view of an event stream: line splitting, field processing and dispatch as in
    section 9.2.6 of the WHATWG HTML standard. A `char` stands for one byte of the stream: every
    character the parser looks at is ASCII, so UTF-8 sequences pass through untouched. */
module EventStreams {
  import opened Text

  datatype Message = Message(eventType: string, data: string, lastEventId: string)

  /** The data, event type and last event ID buffers. */
  datatype Buffers = Buffers(data: string, eventType: string, lastEventId: string)

  const BYTE_ORDER_MARK := "\U{EF}\U{BB}\U{BF}"
  const START := Buffers("", "", "")

  /** Index of the first CR or LF at or after `from`, -1 if there is none. */
  function LineEnd(s: string, from: nat): (r: int)
    ensures r == -1 || (from <= r < |s| && s[r] in "\r\n")
    ensures forall i :: from <= i < |s| && (r == -1 || i < r) ==> s[i] !in "\r\n"
    decreases |s| - from
  {
    if from >= |s| then -1 else if s[from] in "\r\n" then from else LineEnd(s, from + 1)
  }

  function Field(b: Buffers, name: string, value: string): Buffers {
    if name == "event" then b.(eventType := value)
    else if name == "data" then b.(data := b.data + value + "\n")
    else if name == "id" && Free(value, '\0') then b.(lastEventId := value)
    else b
  }

  function AfterSpace(value: string): string {
    if value != "" && value[0] == ' ' then value[1..] else value
  }

  /** A non-empty line; a comment starts with a colon. */
  function ProcessLine(b: Buffers, line: string): Buffers {
    var colon := FindChar(line, ':', 0);
    if colon == 0 then b
    else if colon == -1 then Field(b, line, "")
    else Field(b, line[..colon], AfterSpace(line[colon + 1..]))
  }

  /** What a blank line dispatches. The data buffer's last character is a line feed. */
  function Dispatched(b: Buffers): seq<Message> {
    if b.data == "" then []
    else [Message(if b.eventType == "" then "message" else b.eventType, b.data[..|b.data| - 1], b.lastEventId)]
  }

  function LineBuffers(b: Buffers, line: string): Buffers {
    if line == "" then START.(lastEventId := b.lastEventId) else ProcessLine(b, line)
  }

  function LineMessages(b: Buffers, line: string): seq<Message> {
    if line == "" then Dispatched(b) else []
  }

  /** Where the line after the one ending at `end` starts: a CR and LF together end one line. */
  function NextLine(s: string, end: nat): (r: nat)
    requires end < |s|
    ensures end < r <= |s|
  {
    if s[end] == '\r' && end + 1 < |s| && s[end + 1] == '\n' then end + 2 else end + 1
  }

  /** The messages dispatched while reading `s`; an unfinished last line is discarded. */
  function Messages(b: Buffers, s: string): seq<Message>
    decreases |s|
  {
    var end := LineEnd(s, 0);
    if end == -1 then []
    else LineMessages(b, s[..end]) + Messages(LineBuffers(b, s[..end]), s[NextLine(s, end)..])
  }

  /** The buffers after reading `s`. */
  function After(b: Buffers, s: string): Buffers
    decreases |s|
  {
    var end := LineEnd(s, 0);
    if end == -1 then b else After(LineBuffers(b, s[..end]), s[NextLine(s, end)..])
  }

  /** The stream with a leading byte order mark removed. */
  function Parse(s: string): seq<Message> {
    Messages(START, if BYTE_ORDER_MARK <= s then s[3..] else s)
  }

  // ---------- What can come out ----------

  ghost predicate CleanId(id: string) {
    OneLine(id) && Free(id, '\0')
  }

  ghost predicate CleanMessage(m: Message) {
    Free(m.data, '\r') && OneLine(m.eventType) && CleanId(m.lastEventId)
  }

  ghost predicate CleanBuffers(b: Buffers) {
    Free(b.data, '\r') && OneLine(b.eventType) && CleanId(b.lastEventId)
  }

  lemma FieldClean(b: Buffers, name: string, value: string)
    requires CleanBuffers(b) && OneLine(value)
    ensures CleanBuffers(Field(b, name, value))
  {
  }

  lemma ProcessLineClean(b: Buffers, line: string)
    requires CleanBuffers(b) && OneLine(line)
    ensures CleanBuffers(ProcessLine(b, line))
  {
    hide Field, FindChar, CleanBuffers;
    var colon := FindChar(line, ':', 0);
    if colon == -1 {
      FieldClean(b, line, "");
    } else {
      FieldClean(b, line[..colon], AfterSpace(line[colon + 1..]));
    }
  }

  lemma LineClean(b: Buffers, line: string)
    requires CleanBuffers(b) && OneLine(line)
    ensures CleanBuffers(LineBuffers(b, line))
    ensures forall m <- LineMessages(b, line) :: CleanMessage(m)
  {
    hide ProcessLine;
    ProcessLineClean(b, line);
  }

  lemma FirstLineIsOneLine(s: string)
    requires LineEnd(s, 0) != -1
    ensures OneLine(s[..LineEnd(s, 0)])
  {
    hide LineEnd;
  }

  /** No stream whatever makes a parser dispatch a carriage return in the data, a line break in
      the type, or a line break or NUL in the last event ID. */
  lemma {:induction false} OnlyCleanMessages(b: Buffers, s: string)
    requires CleanBuffers(b)
    ensures forall m <- Messages(b, s) :: CleanMessage(m)
    ensures CleanBuffers(After(b, s))
    decreases |s|
  {
    hide LineBuffers, LineMessages, LineEnd, NextLine, CleanMessage, CleanBuffers, OneLine;
    var end := LineEnd(s, 0);
    if end != -1 {
      FirstLineIsOneLine(s);
      LineClean(b, s[..end]);
      OnlyCleanMessages(LineBuffers(b, s[..end]), s[NextLine(s, end)..]);
    }
  }

  // ---------- Reading one text after another ----------

  predicate WholeLines(s: string) {
    s == "" || s[|s| - 1] == '\n'
  }

  lemma LineEndKept(s: string, rest: string)
    requires s != "" && WholeLines(s)
    ensures LineEnd(s, 0) != -1 && LineEnd(s + rest, 0) == LineEnd(s, 0)
    ensures var end := LineEnd(s, 0);
            && NextLine(s + rest, end) == NextLine(s, end) && (s + rest)[..end] == s[..end]
            && (s + rest)[NextLine(s, end)..] == s[NextLine(s, end)..] + rest
            && WholeLines(s[NextLine(s, end)..])
  {
    hide LineEnd;
    var all := s + rest;
    assert s[|s| - 1] in "\r\n";
    var end, end' := LineEnd(s, 0), LineEnd(all, 0);
    assert all[end] == s[end];
    assert forall i :: 0 <= i < |s| ==> all[i] == s[i];
    assert end' == end;
  }

  /** Whole lines can be read on their own, and reading goes on with what they leave behind. */
  lemma {:induction false} ReadAlong(b: Buffers, s: string, rest: string)
    requires WholeLines(s)
    ensures Messages(b, s + rest) == Messages(b, s) + Messages(After(b, s), rest)
    ensures After(b, s + rest) == After(After(b, s), rest)
    decreases |s|
  {
    hide LineBuffers, LineMessages, LineEnd, NextLine;
    if s == "" {
      assert s + rest == rest;
      NoLine();
    } else {
      LineEndKept(s, rest);
      var end := LineEnd(s, 0);
      ReadAlong(LineBuffers(b, s[..end]), s[NextLine(s, end)..], rest);
    }
  }

  lemma NoLine()
    ensures LineEnd("", 0) == -1
  {
  }

  lemma BlankLineAfter(b: Buffers)
    ensures After(b, "\n") == START.(lastEventId := b.lastEventId) && Messages(b, "\n") == Dispatched(b)
  {
    assert "\n"[1..] == "" && "\n"[..0] == "";
    assert Dispatched(b) + [] == Dispatched(b);
  }

  // ---------- Reading lines that end in LF ----------

  lemma LineRead(b: Buffers, line: string, rest: string)
    requires OneLine(line) && line != ""
    ensures Messages(b, line + "\n" + rest) == Messages(ProcessLine(b, line), rest)
  {
    hide ProcessLine;
    var s := line + "\n" + rest;
    assert s[|line|] == '\n';
    assert forall i :: 0 <= i < |line| ==> s[i] == line[i];
    assert LineEnd(s, 0) == |line|;
    assert s[..|line|] == line && s[|line| + 1..] == rest;
  }

  lemma BlankLineRead(b: Buffers, rest: string)
    ensures Messages(b, "\n" + rest) == Dispatched(b) + Messages(START.(lastEventId := b.lastEventId), rest)
  {
    BlankLineAfter(b);
    ReadAlong(b, "\n", rest);
  }

  lemma FieldRead(b: Buffers, name: string, value: string, rest: string)
    requires OneLine(name) && name != "" && Free(name, ':') && OneLine(value)
    ensures Messages(b, name + ": " + value + "\n" + rest) == Messages(Field(b, name, value), rest)
  {
    hide Messages, Field, FindChar, OneLine;
    var line := name + ": " + value;
    FieldSplit(name, value);
    OneLineField(name, value);
    LineRead(b, line, rest);
    assert AfterSpace(" " + value) == value by { assert (" " + value)[1..] == value; }
  }

  lemma FieldSplit(name: string, value: string)
    requires Free(name, ':')
    ensures var line := name + ": " + value;
            FindChar(line, ':', 0) == |name| && line[..|name|] == name && line[|name| + 1..] == " " + value
  {
    hide FindChar;
    var line := name + ": " + value;
    assert line[|name|] == ": "[0] && forall i :: 0 <= i < |name| ==> line[i] == name[i];
  }

  lemma OneLineField(name: string, value: string)
    requires OneLine(name) && OneLine(value)
    ensures OneLine(name + ": " + value)
  {
    assert OneLine(": ");
    OneLineAppend(name, ": ");
    OneLineAppend(name + ": ", value);
  }

  // ---------- What text amounts to, line by line ----------

  /** The lines of `s`; an unfinished last one is not counted. */
  function Lines(s: string): seq<string>
    decreases |s|
  {
    var end := LineEnd(s, 0);
    if end == -1 then [] else [s[..end]] + Lines(s[NextLine(s, end)..])
  }

  /** A line that adds to the data. */
  predicate IsDataField(line: string) {
    line == "data" || "data:" <= line
  }

  /** The last event ID after one line, and after several. */
  function IdOf(line: string, id: string): string {
    if line == "id" then ""
    else if "id:" <= line && Free(AfterSpace(line[3..]), '\0') then AfterSpace(line[3..])
    else id
  }

  function IdAfter(lines: seq<string>, id: string): string
    decreases |lines|
  {
    if lines == [] then id else IdAfter(lines[1..], IdOf(lines[0], id))
  }

  lemma FieldName(line: string, name: string)
    requires Free(name, ':')
    ensures var colon := FindChar(line, ':', 0);
            if colon == -1 then !(name + ":" <= line)
            else line != name && (line[..colon] == name <==> name + ":" <= line)
  {
    hide FindChar;
    var colon, start := FindChar(line, ':', 0), name + ":";
    assert start[|name|] == ":"[0] && forall i :: 0 <= i < |name| ==> start[i] == name[i];
    if colon != -1 && line[..colon] == name {
      assert line[..colon + 1] == start;
    }
    if start <= line {
      assert line[|name|] == start[|name|] && forall i :: 0 <= i < |name| ==> line[i] == start[i];
      assert colon == |name| && line[..colon] == name;
    }
  }

  lemma KnownNames()
    ensures Free("data", ':') && Free("id", ':') && "data" + ":" == "data:" && "id" + ":" == "id:"
  {
  }

  lemma LineTaken(b: Buffers, line: string)
    requires line != ""
    ensures ProcessLine(b, line).data == "" <==> b.data == "" && !IsDataField(line)
    ensures ProcessLine(b, line).lastEventId == IdOf(line, b.lastEventId)
  {
    hide FindChar, Free;
    KnownNames();
    FieldName(line, "data");
    FieldName(line, "id");
    var colon := FindChar(line, ':', 0);
    if colon > 0 && line[..colon] == "id" { assert colon == 2; }
    NothingFree();
  }

  lemma NothingFree()
    ensures Free("", '\0')
  {
  }

  /** The last event ID that any text leaves behind is settled by its lines. */
  lemma {:induction false} IdAfterLines(b: Buffers, s: string)
    ensures After(b, s).lastEventId == IdAfter(Lines(s), b.lastEventId)
    decreases |s|
  {
    hide LineEnd, NextLine, ProcessLine;
    var end := LineEnd(s, 0);
    if end != -1 {
      if end > 0 { LineTaken(b, s[..end]); }
      IdAfterLines(LineBuffers(b, s[..end]), s[NextLine(s, end)..]);
      assert Lines(s)[1..] == Lines(s[NextLine(s, end)..]);
    }
  }

  // ---------- Data that was read is dispatched ----------

  /** Whole lines, the last one blank. */
  predicate EndsBlank(s: string) {
    s == "\n" || (|s| >= 2 && s[|s| - 2..] == "\n\n")
  }

  lemma ProcessLineKeepsData(b: Buffers, line: string)
    requires b.data != ""
    ensures ProcessLine(b, line).data != ""
  {
    hide FindChar;
  }

  lemma LineIsThere(s: string)
    requires EndsBlank(s)
    ensures LineEnd(s, 0) != -1
  {
    hide LineEnd;
    assert s[|s| - 1] == s[|s| - 1..][0];
    assert s[|s| - 1] in "\r\n";
  }

  /** After a line there is nothing left, or text that ends in a blank line again; after a line
      that is not blank there is more. */
  lemma MoreAfterLine(s: string)
    requires EndsBlank(s)
    ensures LineEnd(s, 0) != -1
    ensures var next := NextLine(s, LineEnd(s, 0));
            && (next < |s| ==> EndsBlank(s[next..]))
            && (LineEnd(s, 0) > 0 ==> next < |s|)
  {
    hide LineEnd, EndsBlank;
    LineIsThere(s);
    var next := NextLine(s, LineEnd(s, 0));
    LastTwo(s);
    if next < |s| { BlankSuffix(s, next); }
  }

  lemma LastTwo(s: string)
    requires EndsBlank(s)
    ensures s == "\n" || (|s| >= 2 && s[|s| - 2] == '\n' && s[|s| - 1] == '\n')
  {
    if |s| >= 2 {
      var tail := s[|s| - 2..];
      assert s[|s| - 2] == tail[0] && s[|s| - 1] == tail[1];
    }
  }

  lemma BlankSuffix(s: string, next: nat)
    requires EndsBlank(s) && next < |s|
    ensures EndsBlank(s[next..])
  {
    LastTwo(s);
    var t := s[next..];
    if next == |s| - 1 {
      assert t == [s[next]];
    } else {
      assert t[|t| - 2..] == [s[|s| - 2], s[|s| - 1]];
    }
  }

  lemma {:induction false} DataIsDispatched(b: Buffers, s: string)
    requires b.data != "" && EndsBlank(s)
    ensures Messages(b, s) != []
    decreases |s|
  {
    hide ProcessLine, LineEnd, EndsBlank;
    MoreAfterLine(s);
    var end := LineEnd(s, 0);
    if end > 0 {
      ProcessLineKeepsData(b, s[..end]);
      DataIsDispatched(LineBuffers(b, s[..end]), s[NextLine(s, end)..]);
    }
  }

  lemma DataFieldRead(b: Buffers, s: string)
    requires "data: " <= s && EndsBlank(s)
    ensures Messages(b, s) != []
  {
    hide ProcessLine, LineEnd, Messages, EndsBlank;
    MoreAfterLine(s);
    var end := LineEnd(s, 0);
    assert forall i :: 0 <= i < 6 ==> s[i] == "data: "[i];
    assert end >= 6;
    assert "data:" <= s[..end];
    LineTaken(b, s[..end]);
    DataIsDispatched(LineBuffers(b, s[..end]), s[NextLine(s, end)..]);
    MessagesStep(b, s);
  }

  lemma MessagesStep(b: Buffers, s: string)
    requires LineEnd(s, 0) != -1
    ensures var end := LineEnd(s, 0);
            Messages(b, s) == LineMessages(b, s[..end]) + Messages(LineBuffers(b, s[..end]), s[NextLine(s, end)..])
  {
    hide LineEnd, LineMessages, LineBuffers;
  }

  /** Text that ends in a blank line dispatches something exactly when one of its lines is a data
      field. */
  lemma {:induction false} SilentReading(b: Buffers, s: string)
    requires b.data == "" && (s == "" || EndsBlank(s))
    ensures Messages(b, s) == [] <==> forall line <- Lines(s) :: !IsDataField(line)
    decreases |s|
  {
    hide LineEnd, NextLine, ProcessLine, EndsBlank, IsDataField;
    if s == "" {
      NoLine();
    } else {
      MoreAfterLine(s);
      var end := LineEnd(s, 0);
      var line, rest := s[..end], s[NextLine(s, end)..];
      assert Lines(s) == [line] + Lines(rest);
      if end == 0 {
        BlankIsNoData();
        SilentReading(LineBuffers(b, line), rest);
      } else {
        LineTaken(b, line);
        if IsDataField(line) {
          DataIsDispatched(LineBuffers(b, line), rest);
        } else {
          SilentReading(LineBuffers(b, line), rest);
        }
      }
    }
  }

  lemma BlankIsNoData()
    ensures !IsDataField("")
  {
  }
}
