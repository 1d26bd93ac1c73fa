/** Chat messages, their saved form, and what makes a history acceptable to a tool-calling
    model API (include/http/ai_config.h, src/http/chat_agent.cpp). */
module Messages {
  import opened Wrappers

  /** As much of JSON as message records use; `Num` stands for any other scalar. */
  datatype Json = Null | Str(s: string) | Num(n: int) | Arr(items: seq<Json>) | Obj(fields: map<string, Json>)

  datatype Message = Message(role: string, content: string, toolCallId: string, name: string,
                             reasoning: string, toolCalls: Json)

  datatype ToolCall = ToolCall(id: string, name: string, arguments: string)

  datatype Response = Response(success: bool, content: string, reasoning: string,
                               errorMessage: string, toolCalls: seq<ToolCall>)

  type History = seq<Message>

  function Say(role: string, content: string): Message {
    Message(role, content, "", "", "", Null)
  }

  // ---------- Saving and loading ----------

  function Record(m: Message): Json {
    var fields := map["role" := Str(m.role), "content" := Str(m.content), "tool_call_id" := Str(m.toolCallId),
                      "name" := Str(m.name), "reasoning_content" := Str(m.reasoning)];
    Obj(if m.toolCalls.Null? then fields else fields["tool_calls" := m.toolCalls])
  }

  function Records(h: History): seq<Json> {
    seq(|h|, i requires 0 <= i < |h| => Record(h[i]))
  }

  /** `item.value(key, "")`: a missing key gives "", a value of another type throws. */
  function TextField(fields: map<string, Json>, key: string): Option<string> {
    if key !in fields then Some("")
    else match fields[key]
      case Str(s) => Some(s)
      case _ => None
  }

  /** One record read back; `None` is the exception the JSON library throws. */
  function Parsed(record: Json): Option<Message> {
    match record
    case Obj(fields) =>
      if "role" !in fields || !fields["role"].Str? then None
      else
        var content, callId := TextField(fields, "content"), TextField(fields, "tool_call_id");
        var name, reasoning := TextField(fields, "name"), TextField(fields, "reasoning_content");
        if content.None? || callId.None? || name.None? || reasoning.None? then None
        else Some(Message(fields["role"].s, content.value, callId.value, name.value, reasoning.value,
                          if "tool_calls" in fields then fields["tool_calls"] else Null))
    case _ => None
  }

  /** Loading keeps the records before the first one that cannot be read. */
  function Loaded(file: seq<Json>): History {
    if file == [] then []
    else match Parsed(file[0])
      case None => []
      case Some(m) => [m] + Loaded(file[1..])
  }

  lemma LoadedFrom(file: seq<Json>, i: nat)
    requires i < |file|
    ensures Loaded(file[i..])
         == match Parsed(file[i])
            case None => []
            case Some(m) => [m] + Loaded(file[i + 1..])
  {
    hide Parsed;
    assert file[i..][1..] == file[i + 1..];
  }

  /** Reading goes on with one more record, or stops there. */
  lemma LoadedNext(file: seq<Json>, read: History, i: nat)
    requires i < |file| && Loaded(file) == read + Loaded(file[i..])
    ensures match Parsed(file[i])
            case None => Loaded(file) == read
            case Some(m) => Loaded(file) == read + [m] + Loaded(file[i + 1..])
  {
    hide Parsed, Loaded;
    LoadedFrom(file, i);
  }

  lemma NothingLoaded(file: seq<Json>)
    ensures Loaded(file[|file|..]) == [] && file[0..] == file
  {
  }

  /** Everything saved is read back unchanged. */
  lemma {:induction false} SaveLoadRoundTrip(h: History)
    ensures Loaded(Records(h)) == h
  {
    if h != [] {
      assert Parsed(Records(h)[0]) == Some(h[0]);
      assert Records(h)[1..] == Records(h[1..]);
      SaveLoadRoundTrip(h[1..]);
    }
  }

  const OTHER_TEXTS := ["content", "tool_call_id", "name", "reasoning_content"]

  /** A record can be read exactly when it is an object whose role is a string and whose other texts,
      where present, are strings; a text that is absent is read as empty. */
  lemma ParsedExactlyWhen(record: Json)
    ensures Parsed(record).Some?
       <==> && record.Obj? && "role" in record.fields && record.fields["role"].Str?
            && forall key <- OTHER_TEXTS :: key in record.fields ==> record.fields[key].Str?
    ensures Parsed(record).Some? ==>
              var m, text := Parsed(record).value,
                (key: string) => if key in record.fields && record.fields[key].Str? then record.fields[key].s else "";
              && m.role == text("role") && m.content == text("content") && m.toolCallId == text("tool_call_id")
              && m.name == text("name") && m.reasoning == text("reasoning_content")
              && m.toolCalls == if "tool_calls" in record.fields then record.fields["tool_calls"] else Null
  {
    assert OTHER_TEXTS[0] == "content" && OTHER_TEXTS[1] == "tool_call_id" && OTHER_TEXTS[2] == "name"
        && OTHER_TEXTS[3] == "reasoning_content";
  }

  /** Loading reads every record up to the first that cannot be read. */
  lemma {:induction false} LoadedExactly(file: seq<Json>)
    ensures var n := |Loaded(file)|;
            && n <= |file| && (forall i :: 0 <= i < n ==> Parsed(file[i]) == Some(Loaded(file)[i]))
            && (n < |file| ==> Parsed(file[n]).None?)
  {
    hide Parsed;
    if file != [] && Parsed(file[0]).Some? { LoadedExactly(file[1..]); }
  }

  // ---------- Well-formed histories ----------

  predicate IsTool(m: Message) {
    m.role == "tool"
  }

  /** An assistant message that calls tools; it heads a group. */
  predicate IsHead(m: Message) {
    m.role == "assistant" && m.toolCalls != Null
  }

  predicate Calls(call: Json, id: string) {
    call.Obj? && "id" in call.fields && call.fields["id"] == Str(id)
  }

  /** One tool message per call, with matching ids, in order. */
  predicate Answered(calls: seq<Json>, replies: History) {
    && |replies| == |calls|
    && forall i :: 0 <= i < |calls| ==> IsTool(replies[i]) && Calls(calls[i], replies[i].toolCallId)
  }

  function GroupSize(m: Message): (n: nat)
    ensures n >= 1
  {
    if IsHead(m) && m.toolCalls.Arr? then 1 + |m.toolCalls.items| else 1
  }

  predicate StartsWithGroup(h: History) {
    && h != [] && !IsTool(h[0]) && GroupSize(h[0]) <= |h|
    && (IsHead(h[0]) ==> h[0].toolCalls.Arr? && Answered(h[0].toolCalls.items, h[1..GroupSize(h[0])]))
  }

  /** Every assistant tool-call message is followed at once by exactly one tool message per
      call, ids matching in order, and no other tool messages occur. */
  predicate WellFormed(h: History)
    decreases |h|
  {
    h == [] || (StartsWithGroup(h) && WellFormed(h[GroupSize(h[0])..]))
  }

  lemma {:induction false} WellFormedConcat(a: History, b: History)
    requires WellFormed(a) && WellFormed(b)
    ensures WellFormed(a + b)
    decreases |a|
  {
    if a == [] {
      assert a + b == b;
    } else {
      hide StartsWithGroup, GroupSize;
      var n := GroupSize(a[0]);
      FirstGroupKept(a, b);
      WellFormedConcat(a[n..], b);
    }
  }

  lemma FirstGroupKept(a: History, b: History)
    requires StartsWithGroup(a)
    ensures var n := GroupSize(a[0]);
            StartsWithGroup(a + b) && (a + b)[0] == a[0] && n <= |a| && (a + b)[n..] == a[n..] + b
  {
    var n := GroupSize(a[0]);
    assert (a + b)[1..n] == a[1..n];
  }

  lemma {:induction false} WellFormedCancel(a: History, b: History)
    requires WellFormed(a) && WellFormed(a + b)
    ensures WellFormed(b)
    decreases |a|
  {
    if a == [] {
      assert a + b == b;
    } else {
      hide StartsWithGroup, GroupSize;
      FirstGroupKept(a, b);
      WellFormedCancel(a[GroupSize(a[0])..], b);
    }
  }

  lemma PlainMessage(m: Message)
    requires !IsTool(m) && !IsHead(m)
    ensures WellFormed([m])
  {
    assert [m][1..] == [];
  }

  /** At most `k` tool calls in any one message. */
  predicate GroupsAtMost(h: History, k: nat) {
    forall i :: 0 <= i < |h| ==> GroupSize(h[i]) <= k + 1
  }
}
