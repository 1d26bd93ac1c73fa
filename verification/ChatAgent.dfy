/** The LLM/tool loop of src/http/chat_agent.cpp.

    The model and the tool executor are oracles indexed by a call counter, so a theorem for
    every oracle covers every upstream, however it behaves over time. */
module ChatAgents {
  import opened Messages
  import opened Wrappers

  datatype Oracle = Oracle(llm: (nat, seq<Message>) -> Response, tool: (nat, string, string) -> string)

  /** What one user message leads to: the history it leaves, the answer, every request sent
      to the gateway, and the call counter afterwards. */
  datatype Turn = Turn(history: History, response: Response, sent: seq<History>, tick: nat)

  const LIMIT_REACHED := "Reached maximum tool call limit."

  function Request(prompt: string, h: History): seq<Message> {
    (if prompt == "" then [] else [Say("system", prompt)]) + h
  }

  function CallRecord(c: ToolCall): Json {
    Obj(map["id" := Str(c.id), "type" := Str("function"),
            "function" := Obj(map["name" := Str(c.name), "arguments" := Str(c.arguments)])])
  }

  function CallRecords(calls: seq<ToolCall>): seq<Json> {
    seq(|calls|, i requires 0 <= i < |calls| => CallRecord(calls[i]))
  }

  function AssistantCalls(r: Response): Message {
    Message("assistant", r.content, "", "", r.reasoning, Arr(CallRecords(r.toolCalls)))
  }

  function ToolResult(o: Oracle, c: ToolCall, tick: nat): Message {
    Message("tool", o.tool(tick, c.name, c.arguments), c.id, c.name, "", Null)
  }

  function ToolResults(o: Oracle, calls: seq<ToolCall>, tick: nat): (h: History)
    ensures |h| == |calls|
  {
    seq(|calls|, i requires 0 <= i < |calls| => ToolResult(o, calls[i], tick + i))
  }

  /** The loop from `done` completed tool rounds on. */
  function Rounds(o: Oracle, prompt: string, limit: int, h: History, done: int, tick: nat): Turn
    decreases limit - done
  {
    if done >= limit then
      Turn(h + [Say("assistant", LIMIT_REACHED)], Response(false, LIMIT_REACHED, "", "", []), [], tick)
    else
      var request := Request(prompt, h);
      var reply := o.llm(tick, request);
      if !reply.success then Turn(h, reply, [request], tick + 1)
      else if reply.toolCalls == [] then
        Turn(h + [Say("assistant", reply.content)], reply, [request], tick + 1)
      else
        var h' := h + [AssistantCalls(reply)] + ToolResults(o, reply.toolCalls, tick + 1);
        var t := Rounds(o, prompt, limit, h', done + 1, tick + 1 + |reply.toolCalls|);
        t.(sent := [request] + t.sent)
  }

  function Converse(o: Oracle, prompt: string, limit: int, h: History, user: string, tick: nat): Turn {
    Rounds(o, prompt, limit, h + [Say("user", user)], 0, tick)
  }

  class ChatAgent {
    const maxToolCalls: int
    var history: History
    var sessionId: string
    var systemPrompt: string

    constructor (prompt: string, maxToolCalls: int := 10)
      ensures history == [] && sessionId == "" && systemPrompt == prompt && this.maxToolCalls == maxToolCalls
    {
      this.maxToolCalls := maxToolCalls;
      history, sessionId, systemPrompt := [], "", prompt;
    }

    method SetSystemPrompt(prompt: string)
      modifies this`systemPrompt
      ensures systemPrompt == prompt
    {
      systemPrompt := prompt;
    }

    method Process(user: string, o: Oracle, start: nat) returns (response: Response, ghost sent: seq<History>,
                   tick: nat)
      modifies this`history
      ensures Turn(history, response, sent, tick)
           == Converse(o, systemPrompt, maxToolCalls, old(history), user, start)
    {
      history := history + [Say("user", user)];
      ghost var goal := Rounds(o, systemPrompt, maxToolCalls, history, 0, start);
      var toolCalls := 0;
      tick, sent := start, [];
      while toolCalls < maxToolCalls
        invariant goal == Sending(sent, Rounds(o, systemPrompt, maxToolCalls, history, toolCalls, tick))
        decreases maxToolCalls - toolCalls
      {
        var request := Request(systemPrompt, history);
        response := o.llm(tick, request);
        ghost var before := sent;
        sent := sent + [request];
        tick := tick + 1;
        if !response.success {
          return;
        }
        if response.toolCalls == [] {
          history := history + [Say("assistant", response.content)];
          return;
        }
        history := history + [AssistantCalls(response)];
        ghost var headed, asked := history, tick;
        for i := 0 to |response.toolCalls|
          invariant history == headed + ToolResults(o, response.toolCalls, asked)[..i]
          invariant tick == asked + i
        {
          var call := response.toolCalls[i];
          var result := o.tool(tick, call.name, call.arguments);
          history := history + [Message("tool", result, call.id, call.name, "", Null)];
          tick := tick + 1;
        }
        ghost var results := ToolResults(o, response.toolCalls, asked);
        assert results[..|response.toolCalls|] == results;
        toolCalls := toolCalls + 1;
        SendingAssociates(before, request, Rounds(o, systemPrompt, maxToolCalls, history, toolCalls, tick));
      }
      response := Response(false, LIMIT_REACHED, "", "", []);
      history := history + [Say("assistant", LIMIT_REACHED)];
    }

    method ClearHistory()
      modifies this`history
      ensures history == []
    {
      history := [];
    }

    method SaveHistory() returns (file: seq<Json>)
      ensures file == Records(history)
    {
      file := [];
      for i := 0 to |history|
        invariant file == Records(history)[..i]
      {
        file := file + [Record(history[i])];
      }
    }

    /** `file` is `None` when it cannot be opened. */
    method LoadHistory(file: Option<seq<Json>>) returns (ok: bool)
      modifies this`history
      ensures file.None? ==> !ok && history == old(history)
      ensures file.Some? ==> history == Loaded(file.value) && (ok <==> |history| == |file.value|)
    {
      if file.None? {
        return false;
      }
      hide Parsed, Loaded;
      var records := file.value;
      NothingLoaded(records);
      history := [];
      for i := 0 to |records|
        invariant Loaded(records) == history + Loaded(records[i..]) && |history| == i
      {
        LoadedNext(records, history, i);
        match Parsed(records[i]) {
          case None =>
            return false;
          case Some(m) =>
            history := history + [m];
        }
      }
      return true;
    }
  }

  ghost function Sending(sent: seq<History>, t: Turn): Turn {
    t.(sent := sent + t.sent)
  }

  lemma SendingAssociates(sent: seq<History>, request: History, t: Turn)
    ensures Sending(sent + [request], t) == Sending(sent, t.(sent := [request] + t.sent))
  {
  }

  // ---------- What every conversation keeps ----------

  lemma CallGroupWellFormed(o: Oracle, r: Response, tick: nat)
    ensures WellFormed([AssistantCalls(r)] + ToolResults(o, r.toolCalls, tick))
  {
    var group := [AssistantCalls(r)] + ToolResults(o, r.toolCalls, tick);
    assert group[1..GroupSize(group[0])] == ToolResults(o, r.toolCalls, tick);
    assert group[GroupSize(group[0])..] == [];
  }

  lemma {:induction false} RequestWellFormed(prompt: string, h: History)
    requires WellFormed(h)
    ensures WellFormed(Request(prompt, h))
  {
    if prompt != "" {
      PlainMessage(Say("system", prompt));
      WellFormedConcat([Say("system", prompt)], h);
    } else {
      assert Request(prompt, h) == h;
    }
  }

  /** From a well-formed history, every request of every round is well-formed, and so is the
      history left behind: through failures, natural answers and the round limit alike. */
  lemma {:induction false} RoundsWellFormed(o: Oracle, prompt: string, limit: int, h: History, done: int, tick: nat)
    requires WellFormed(h)
    ensures var t := Rounds(o, prompt, limit, h, done, tick);
            WellFormed(t.history) && forall i :: 0 <= i < |t.sent| ==> WellFormed(t.sent[i])
    decreases limit - done
  {
    hide WellFormed, Request;
    RequestWellFormed(prompt, h);
    if done >= limit {
      PlainMessage(Say("assistant", LIMIT_REACHED));
      WellFormedConcat(h, [Say("assistant", LIMIT_REACHED)]);
    } else {
      var reply := o.llm(tick, Request(prompt, h));
      if reply.success && reply.toolCalls == [] {
        PlainMessage(Say("assistant", reply.content));
        WellFormedConcat(h, [Say("assistant", reply.content)]);
      } else if reply.success {
        var head, results := [AssistantCalls(reply)], ToolResults(o, reply.toolCalls, tick + 1);
        CallGroupWellFormed(o, reply, tick + 1);
        WellFormedConcat(h, head + results);
        assert h + head + results == h + (head + results);
        RoundsWellFormed(o, prompt, limit, h + head + results, done + 1, tick + 1 + |reply.toolCalls|);
      }
    }
  }

  lemma ConverseWellFormed(o: Oracle, prompt: string, limit: int, h: History, user: string, tick: nat)
    requires WellFormed(h)
    ensures var t := Converse(o, prompt, limit, h, user, tick);
            WellFormed(t.history) && forall i :: 0 <= i < |t.sent| ==> WellFormed(t.sent[i])
  {
    PlainMessage(Say("user", user));
    WellFormedConcat(h, [Say("user", user)]);
    RoundsWellFormed(o, prompt, limit, h + [Say("user", user)], 0, tick);
  }

  /** No reply of the model asks for more than `k` tools. */
  ghost predicate CallsAtMost(o: Oracle, k: nat) {
    forall n: nat, request: seq<Message> :: |o.llm(n, request).toolCalls| <= k
  }

  lemma CallGroupSizes(o: Oracle, r: Response, tick: nat, k: nat)
    requires |r.toolCalls| <= k
    ensures GroupsAtMost([AssistantCalls(r)] + ToolResults(o, r.toolCalls, tick), k)
  {
  }

  lemma {:induction false} RoundsKeepGroups(o: Oracle, prompt: string, limit: int, h: History, done: int, tick: nat,
                                            k: nat)
    requires CallsAtMost(o, k) && GroupsAtMost(h, k)
    ensures GroupsAtMost(Rounds(o, prompt, limit, h, done, tick).history, k)
    decreases limit - done
  {
    if done < limit {
      var reply := o.llm(tick, Request(prompt, h));
      if reply.success && reply.toolCalls != [] {
        CallGroupSizes(o, reply, tick + 1, k);
        var group := [AssistantCalls(reply)] + ToolResults(o, reply.toolCalls, tick + 1);
        assert h + [AssistantCalls(reply)] + ToolResults(o, reply.toolCalls, tick + 1) == h + group;
        RoundsKeepGroups(o, prompt, limit, h + group, done + 1, tick + 1 + |reply.toolCalls|, k);
      }
    }
  }

  /** What `rounds` tool rounds of at most `k` calls can add, besides the closing message. */
  function RoundsRoom(rounds: nat, k: nat): (n: nat)
    ensures n == rounds * (k + 1)
  {
    if rounds == 0 then 0 else RoundsRoom(rounds - 1, k) + k + 1
  }

  lemma {:induction false} RoundsGrowth(o: Oracle, prompt: string, limit: int, h: History, done: int, tick: nat, k: nat)
    requires CallsAtMost(o, k) && done <= limit
    ensures |h| <= |Rounds(o, prompt, limit, h, done, tick).history| <= |h| + RoundsRoom(limit - done, k) + 1
    ensures |Rounds(o, prompt, limit, h, done, tick).sent| <= limit - done
    decreases limit - done
  {
    if done < limit {
      var reply := o.llm(tick, Request(prompt, h));
      if reply.success && reply.toolCalls != [] {
        var h' := h + [AssistantCalls(reply)] + ToolResults(o, reply.toolCalls, tick + 1);
        assert |h'| <= |h| + k + 1;
        RoundsGrowth(o, prompt, limit, h', done + 1, tick + 1 + |reply.toolCalls|, k);
      }
    }
  }

  // ---------- What is said in a turn ----------

  /** The system prompt's message, if there is a prompt. */
  function Preface(prompt: string): History {
    if prompt == "" then [] else [Message("system", prompt, "", "", "", Null)]
  }

  /** When the n-th request is answered: every reply and every tool call takes one tick. */
  function TickOf(o: Oracle, sent: seq<History>, start: nat, n: nat): nat
    requires n <= |sent|
  {
    if n == 0 then start
    else
      var t := TickOf(o, sent, start, n - 1);
      t + 1 + |o.llm(t, sent[n - 1]).toolCalls|
  }

  function ReplyTo(o: Oracle, sent: seq<History>, start: nat, n: nat): Response
    requires n < |sent|
  {
    o.llm(TickOf(o, sent, start, n), sent[n])
  }

  /** These messages record the reply `r`, made at `tick`: its text, reasoning and calls, and for
      each call what the executor gives for that call's own name and arguments. */
  predicate RecordsCalls(o: Oracle, r: Response, tick: nat, ms: History) {
    && |ms| == 1 + |r.toolCalls|
    && ms[0].role == "assistant" && ms[0].content == r.content && ms[0].reasoning == r.reasoning
    && ms[0].toolCalls.Arr? && |ms[0].toolCalls.items| == |r.toolCalls|
    && forall j :: 0 <= j < |r.toolCalls| ==>
         var c := r.toolCalls[j];
         && ms[0].toolCalls.items[j]
            == Obj(map["id" := Str(c.id), "type" := Str("function"),
                       "function" := Obj(map["name" := Str(c.name), "arguments" := Str(c.arguments)])])
         && ms[j + 1] == Message("tool", o.tool(tick + 1 + j, c.name, c.arguments), c.id, c.name, "", Null)
  }

  /** The request after the n-th is that one, extended by a record of the reply to it. */
  predicate Continues(o: Oracle, sent: seq<History>, start: nat, n: nat)
    requires n + 1 < |sent|
  {
    var r := ReplyTo(o, sent, start, n);
    && r.success && r.toolCalls != []
    && sent[n] <= sent[n + 1]
    && RecordsCalls(o, r, TickOf(o, sent, start, n), sent[n + 1][|sent[n]|..])
  }

  predicate Coherent(o: Oracle, sent: seq<History>, start: nat) {
    forall n: nat :: n + 1 < |sent| ==> Continues(o, sent, start, n)
  }

  /** How a turn ends: with a failure passed on, with the reply as answer and as last message, or,
      after as many rounds as there is room for, with the closing text. */
  predicate Concludes(o: Oracle, preface: nat, start: nat, room: int, t: Turn)
    requires t.sent != []
  {
    var n := |t.sent| - 1;
    var r, q := ReplyTo(o, t.sent, start, n), t.sent[n];
    && preface <= |q|
    && if !r.success then t.response == r && t.history == q[preface..]
       else if r.toolCalls == [] then
         t.response == r && t.history == q[preface..] + [Message("assistant", r.content, "", "", "", Null)]
       else
         && |t.sent| == room
         && t.response == Response(false, "Reached maximum tool call limit.", "", "", [])
         && |t.history| == |q| - preface + |r.toolCalls| + 2
         && t.history[..|q| - preface] == q[preface..]
         && RecordsCalls(o, r, TickOf(o, t.sent, start, n), t.history[|q| - preface..|t.history| - 1])
         && t.history[|t.history| - 1] == Message("assistant", "Reached maximum tool call limit.", "", "", "", Null)
  }

  lemma {:induction false} LaterTick(o: Oracle, q: History, sent: seq<History>, start: nat, n: nat)
    requires n <= |sent|
    ensures TickOf(o, [q] + sent, start, n + 1) == TickOf(o, sent, start + 1 + |o.llm(start, q).toolCalls|, n)
  {
    if n > 0 { LaterTick(o, q, sent, start, n - 1); }
  }

  lemma RoundRecorded(o: Oracle, r: Response, tick: nat)
    ensures RecordsCalls(o, r, tick, [AssistantCalls(r)] + ToolResults(o, r.toolCalls, tick + 1))
  {
    var ms := [AssistantCalls(r)] + ToolResults(o, r.toolCalls, tick + 1);
    assert forall k :: 0 < k < |ms| ==> ms[k] == ToolResults(o, r.toolCalls, tick + 1)[k - 1];
  }

  lemma {:induction false} RoundsTranscript(o: Oracle, prompt: string, limit: int, h: History, done: int, tick: nat)
    requires done < limit
    ensures var t := Rounds(o, prompt, limit, h, done, tick);
            && 1 <= |t.sent| <= limit - done && t.sent[0] == Preface(prompt) + h
            && Coherent(o, t.sent, tick)
            && Concludes(o, |Preface(prompt)|, tick, limit - done, t)
    decreases limit - done
  {
    hide RecordsCalls, ToolResults, AssistantCalls, Concludes, Continues, Preface;
    var q, p := Request(prompt, h), |Preface(prompt)|;
    var r := o.llm(tick, q);
    PrefaceSent(prompt, h);
    if r.success && r.toolCalls != [] {
      var ms := [AssistantCalls(r)] + ToolResults(o, r.toolCalls, tick + 1);
      var h', tick' := h + [AssistantCalls(r)] + ToolResults(o, r.toolCalls, tick + 1), tick + 1 + |r.toolCalls|;
      assert h' == h + ms && Preface(prompt) + h' == q + ms;
      RoundRecorded(o, r, tick);
      if done + 1 < limit {
        RoundsTranscript(o, prompt, limit, h', done + 1, tick');
        ContinuesLater(o, q, r, ms, Rounds(o, prompt, limit, h', done + 1, tick'), tick, tick', p, limit - done);
      } else {
        LastRound(o, prompt, limit, h, done, tick, ms);
      }
    } else {
      OnlyRequest(o, prompt, limit, h, done, tick);
    }
  }

  lemma PrefaceSent(prompt: string, h: History)
    ensures Request(prompt, h) == Preface(prompt) + h && Request(prompt, h)[|Preface(prompt)|..] == h
  {
  }

  lemma OnlyRequest(o: Oracle, prompt: string, limit: int, h: History, done: int, tick: nat)
    requires done < limit
    requires var r := o.llm(tick, Request(prompt, h)); !r.success || r.toolCalls == []
    ensures var t := Rounds(o, prompt, limit, h, done, tick);
            t.sent == [Request(prompt, h)] && Concludes(o, |Preface(prompt)|, tick, limit - done, t)
  {
    hide RecordsCalls, Request, Preface;
    PrefaceSent(prompt, h);
  }

  lemma LastRound(o: Oracle, prompt: string, limit: int, h: History, done: int, tick: nat, ms: History)
    requires done + 1 == limit
    requires var r := o.llm(tick, Request(prompt, h));
             && r.success && r.toolCalls != [] && RecordsCalls(o, r, tick, ms)
             && ms == [AssistantCalls(r)] + ToolResults(o, r.toolCalls, tick + 1)
    ensures var t := Rounds(o, prompt, limit, h, done, tick);
            t.sent == [Request(prompt, h)] && Concludes(o, |Preface(prompt)|, tick, 1, t)
  {
    hide RecordsCalls, Request, Preface, ToolResults, AssistantCalls;
    PrefaceSent(prompt, h);
    var r, t := o.llm(tick, Request(prompt, h)), Rounds(o, prompt, limit, h, done, tick);
    assert t.history == h + ms + [Say("assistant", LIMIT_REACHED)];
    assert t.history[..|h|] == h && t.history[|h|..|t.history| - 1] == ms;
    assert |ms| == 1 + |r.toolCalls|;
  }

  lemma ContinuesLater(o: Oracle, q: History, r: Response, ms: History, later: Turn, tick: nat, tick': nat, p: nat,
                       room: int)
    requires r == o.llm(tick, q) && r.success && r.toolCalls != [] && RecordsCalls(o, r, tick, ms)
    requires later.sent != [] && later.sent[0] == q + ms && tick' == tick + 1 + |r.toolCalls|
    requires Coherent(o, later.sent, tick')
    requires Concludes(o, p, tick', room - 1, later)
    ensures var t := later.(sent := [q] + later.sent);
            && Coherent(o, t.sent, tick)
            && Concludes(o, p, tick, room, t)
  {
    hide RecordsCalls;
    var t := later.(sent := [q] + later.sent);
    forall n: nat | n + 1 < |t.sent| ensures Continues(o, t.sent, tick, n) {
      if n == 0 {
        assert t.sent[1] == q + ms && (q + ms)[|q|..] == ms;
      } else {
        LaterTick(o, q, later.sent, tick, n - 1);
        assert Continues(o, later.sent, tick', n - 1);
        assert t.sent[n] == later.sent[n - 1] && t.sent[n + 1] == later.sent[n];
      }
    }
    var last := |later.sent| - 1;
    LaterTick(o, q, later.sent, tick, last);
    assert t.sent[last + 1] == later.sent[last];
  }

  /** The transcript of a turn. The first request is the prompt, the history so far and the user's
      message; each later one adds to the one before what the model replied and the tools gave; the
      answer is the model's reply to the last request, or the closing text when the rounds are used
      up, and the history that is left is the conversation as it was sent, with the answer. */
  lemma TurnTranscript(o: Oracle, prompt: string, limit: int, h: History, user: string, start: nat)
    ensures var t := Converse(o, prompt, limit, h, user, start);
            var asked := h + [Message("user", user, "", "", "", Null)];
            if limit <= 0 then
              && t.sent == [] && t.response == Response(false, "Reached maximum tool call limit.", "", "", [])
              && t.history == asked + [Message("assistant", "Reached maximum tool call limit.", "", "", "", Null)]
            else
              && 1 <= |t.sent| <= limit && t.sent[0] == Preface(prompt) + asked
              && Coherent(o, t.sent, start)
              && Concludes(o, |Preface(prompt)|, start, limit, t)
  {
    hide Continues, Concludes;
    var asked := h + [Message("user", user, "", "", "", Null)];
    assert asked == h + [Say("user", user)];
    if limit > 0 { RoundsTranscript(o, prompt, limit, asked, 0, start); }
  }
}
