/** What the shared buffer and the files amount to: an independent history per session.

    The reference model is a plain map from session names to histories. Every run of the
    memory manager, however it interleaves sessions, is a run of that map; well-formedness of
    requests, the bound on saved histories and the independence of sessions follow there. */
module SessionRefinement {
  import opened Messages
  import opened Wrappers
  import opened ChatAgents
  import opened MemoryManagement

  /** The system prompt and the context limit have setters, and the server sets a new prompt for
      every message: the ones in force when a message is processed are part of the operation. */
  datatype Op = Process(id: string, user: string, prompt: string, maxContext: int) | ClearSession(id: string)

  type Sessions = map<string, History>

  function Recall(m: Sessions, session: string): History {
    if session in m then m[session] else []
  }

  /** `s` gives the constants of a run; the operation gives the rest. */
  function InForce(s: Settings, op: Op): Settings
    requires op.Process?
  {
    s.(prompt := op.prompt, maxContext := op.maxContext)
  }

  // ---------- The reference model ----------

  function SpecTurn(s: Settings, o: Oracle, m: Sessions, op: Op, tick: nat): Turn
    requires op.Process?
  {
    Converse(o, op.prompt, s.toolLimit, Trimmed(InForce(s, op), Recall(m, SessionName(op.id))), op.user, tick)
  }

  function SpecStep(s: Settings, o: Oracle, m: Sessions, op: Op, tick: nat): Sessions {
    match op
    case Process(id, _, _, _) => m[SessionName(id) := SpecTurn(s, o, m, op, tick).history]
    case ClearSession(id) => m - {SessionName(id)}
  }

  /** The turns of a run, one for each `Process`. */
  function SpecRun(s: Settings, o: Oracle, m: Sessions, ops: seq<Op>, tick: nat): seq<Turn>
    decreases |ops|
  {
    if ops == [] then []
    else
      var next := SpecStep(s, o, m, ops[0], tick);
      match ops[0]
      case ClearSession(_) => SpecRun(s, o, next, ops[1..], tick)
      case Process(_, _, _, _) =>
        var t := SpecTurn(s, o, m, ops[0], tick);
        [t] + SpecRun(s, o, next, ops[1..], t.tick)
  }

  // ---------- The memory manager ----------

  function OpTurn(s: Settings, o: Oracle, m: Memory, op: Op, tick: nat): Turn
    requires op.Process?
  {
    ServeTurn(InForce(s, op), o, m, op.user, op.id, tick)
  }

  function Step(s: Settings, o: Oracle, m: Memory, op: Op, tick: nat): Memory {
    match op
    case Process(id, user, _, _) => Serve(InForce(s, op), o, m, user, id, tick)
    case ClearSession(id) => Forget(s, m, id)
  }

  function Run(s: Settings, o: Oracle, m: Memory, ops: seq<Op>, tick: nat): seq<Turn>
    decreases |ops|
  {
    if ops == [] then []
    else
      var next := Step(s, o, m, ops[0], tick);
      match ops[0]
      case ClearSession(_) => Run(s, o, next, ops[1..], tick)
      case Process(_, _, _, _) =>
        var t := OpTurn(s, o, m, ops[0], tick);
        [t] + Run(s, o, next, ops[1..], t.tick)
  }

  // ---------- Refinement ----------

  /** The buffer is empty or is what the agent's current session has on disk. */
  predicate BufferIsCurrent(s: Settings, m: Memory) {
    m.buffer == [] || m.buffer == OnDisk(s, m.disk, m.session)
  }

  /** Moreover, every session's file holds what the reference map holds for it. */
  ghost predicate Refines(s: Settings, m: Memory, a: Sessions) {
    && BufferIsCurrent(s, m)
    && forall session: string :: OnDisk(s, m.disk, session) == Recall(a, session)
  }

  lemma PathsDiffer(dir: string, a: string, b: string)
    requires HistoryPath(dir, a) == HistoryPath(dir, b)
    ensures a == b
  {
    var n := |dir + "/chat_"|;
    assert |a| == |b|;
    assert HistoryPath(dir, a)[n..n + |a|] == a && HistoryPath(dir, b)[n..n + |b|] == b;
  }

  /** Every disk, whatever else it holds, represents some map of sessions. */
  lemma Represents(s: Settings, m: Memory) returns (a: Sessions)
    requires BufferIsCurrent(s, m)
    ensures Refines(s, m, a)
  {
    var before, after := |s.memoryDir| + 6, 5;
    var names := set path | path in m.disk && before + after <= |path| :: path[before..|path| - after];
    a := map n | n in names && HistoryPath(s.memoryDir, n) in m.disk :: OnDisk(s, m.disk, n);
    forall session: string ensures OnDisk(s, m.disk, session) == Recall(a, session) {
      var path := HistoryPath(s.memoryDir, session);
      assert path[before..|path| - after] == session;
      assert path in m.disk ==> session in names;
    }
  }

  lemma StepRefines(s: Settings, o: Oracle, m: Memory, a: Sessions, op: Op, tick: nat)
    requires Refines(s, m, a)
    ensures op.Process? ==> OpTurn(s, o, m, op, tick) == SpecTurn(s, o, a, op, tick)
    ensures Refines(s, Step(s, o, m, op, tick), SpecStep(s, o, a, op, tick))
  {
    var me := SessionName(op.id);
    var m', a' := Step(s, o, m, op, tick), SpecStep(s, o, a, op, tick);
    if op.Process? {
      assert Recall(a, me) == OnDisk(s, m.disk, me) == Resumed(s, m, me);
      SaveLoadRoundTrip(m'.buffer);
    }
    forall session: string ensures OnDisk(s, m'.disk, session) == Recall(a', session) {
      assert OnDisk(s, m.disk, session) == Recall(a, session);
      if session != me && HistoryPath(s.memoryDir, session) == HistoryPath(s.memoryDir, me) {
        PathsDiffer(s.memoryDir, session, me);
      }
    }
  }

  /** Under every interleaving of `Process` and `ClearSession`, the shared buffer behaves like
      an independent map from sessions to histories: same answers, requests and histories. */
  lemma {:induction false} RunRefines(s: Settings, o: Oracle, m: Memory, a: Sessions, ops: seq<Op>, tick: nat)
    requires Refines(s, m, a)
    ensures Run(s, o, m, ops, tick) == SpecRun(s, o, a, ops, tick)
    decreases |ops|
  {
    if ops != [] {
      StepRefines(s, o, m, a, ops[0], tick);
      var next := if ops[0].Process? then OpTurn(s, o, m, ops[0], tick).tick else tick;
      RunRefines(s, o, Step(s, o, m, ops[0], tick), SpecStep(s, o, a, ops[0], tick), ops[1..], next);
    }
  }

  // ---------- Independence of sessions ----------

  /** An upstream that answers a request the same way whenever it comes. */
  ghost predicate Stateless(o: Oracle) {
    && (forall i: nat, j: nat, request: seq<Message> :: o.llm(i, request) == o.llm(j, request))
    && (forall i: nat, j: nat, name: string, args: string :: o.tool(i, name, args) == o.tool(j, name, args))
  }

  function Only(ops: seq<Op>, session: string): seq<Op> {
    if ops == [] then []
    else (if SessionName(ops[0].id) == session then [ops[0]] else []) + Only(ops[1..], session)
  }

  datatype Seen = Seen(response: Response, sent: seq<History>, history: History)

  /** What one session gets to see of a run's turns. */
  function View(turns: seq<Turn>, ops: seq<Op>, session: string): seq<Seen> {
    if turns == [] || ops == [] then []
    else if ops[0].ClearSession? then View(turns, ops[1..], session)
    else
      var t := turns[0];
      (if SessionName(ops[0].id) == session then [Seen(t.response, t.sent, t.history)] else [])
        + View(turns[1..], ops[1..], session)
  }

  lemma {:induction false} TickIrrelevant(o: Oracle, prompt: string, limit: int, h: History, done: int, i: nat, j: nat)
    requires Stateless(o)
    ensures Rounds(o, prompt, limit, h, done, i).(tick := 0) == Rounds(o, prompt, limit, h, done, j).(tick := 0)
    decreases limit - done
  {
    if done < limit {
      var request := Request(prompt, h);
      var reply := o.llm(i, request);
      assert reply == o.llm(j, request);
      hide Request, ToolResults;
      if reply.success && reply.toolCalls != [] {
        SameResults(o, reply.toolCalls, i + 1, j + 1);
        var h' := h + [AssistantCalls(reply)] + ToolResults(o, reply.toolCalls, i + 1);
        TickIrrelevant(o, prompt, limit, h', done + 1, i + 1 + |reply.toolCalls|, j + 1 + |reply.toolCalls|);
      }
    }
  }

  lemma SameResults(o: Oracle, calls: seq<ToolCall>, i: nat, j: nat)
    requires Stateless(o)
    ensures ToolResults(o, calls, i) == ToolResults(o, calls, j)
  {
  }

  function SeenIn(t: Turn): Seen {
    Seen(t.response, t.sent, t.history)
  }

  lemma ViewOfProcess(t: Turn, turns: seq<Turn>, op: Op, rest: seq<Op>, session: string)
    requires op.Process?
    ensures View([t] + turns, [op] + rest, session)
         == (if SessionName(op.id) == session then [SeenIn(t)] else []) + View(turns, rest, session)
  {
    assert ([t] + turns)[1..] == turns && ([op] + rest)[1..] == rest;
  }

  lemma ViewOfClear(turns: seq<Turn>, op: Op, rest: seq<Op>, session: string)
    requires op.ClearSession?
    ensures View(turns, [op] + rest, session) == View(turns, rest, session)
  {
    assert ([op] + rest)[1..] == rest;
  }

  lemma SpecRunStep(s: Settings, o: Oracle, m: Sessions, op: Op, rest: seq<Op>, tick: nat)
    ensures op.ClearSession? ==>
              SpecRun(s, o, m, [op] + rest, tick) == SpecRun(s, o, SpecStep(s, o, m, op, tick), rest, tick)
    ensures op.Process? ==>
              var t := SpecTurn(s, o, m, op, tick);
              SpecRun(s, o, m, [op] + rest, tick) == [t] + SpecRun(s, o, SpecStep(s, o, m, op, tick), rest, t.tick)
  {
    assert ([op] + rest)[1..] == rest;
  }

  lemma TurnsAgree(s: Settings, o: Oracle, m: Sessions, m': Sessions, op: Op, i: nat, j: nat)
    requires Stateless(o) && op.Process? && Recall(m, SessionName(op.id)) == Recall(m', SessionName(op.id))
    ensures SeenIn(SpecTurn(s, o, m, op, i)) == SeenIn(SpecTurn(s, o, m', op, j))
  {
    var h := Trimmed(InForce(s, op), Recall(m, SessionName(op.id)));
    TickIrrelevant(o, op.prompt, s.toolLimit, h + [Say("user", op.user)], 0, i, j);
  }

  /** The reference run as one session sees it is the run of that session's operations alone. */
  lemma {:induction false} SpecIndependence(s: Settings, o: Oracle, m: Sessions, m': Sessions, ops: seq<Op>,
                                            session: string, i: nat, j: nat)
    requires Stateless(o) && Recall(m, session) == Recall(m', session)
    ensures View(SpecRun(s, o, m, ops, i), ops, session)
         == View(SpecRun(s, o, m', Only(ops, session), j), Only(ops, session), session)
    decreases |ops|
  {
    hide SpecTurn, SpecRun, View;
    if ops == [] {
      NothingToSee(s, o, m, session, i);
      NothingToSee(s, o, m', session, j);
    } else {
      var op, rest := ops[0], ops[1..];
      var next := SpecStep(s, o, m, op, i);
      assert ops == [op] + rest;
      SpecRunStep(s, o, m, op, rest, i);
      var i' := if op.Process? then SpecTurn(s, o, m, op, i).tick else i;
      if op.Process? {
        ViewOfProcess(SpecTurn(s, o, m, op, i), SpecRun(s, o, next, rest, i'), op, rest, session);
      } else {
        ViewOfClear(SpecRun(s, o, next, rest, i), op, rest, session);
      }
      if SessionName(op.id) != session {
        assert Only(ops, session) == Only(rest, session);
        SpecIndependence(s, o, next, m', rest, session, i', j);
      } else {
        OwnStep(s, o, m, m', op, rest, session, i, j);
        var j' := if op.Process? then SpecTurn(s, o, m', op, j).tick else j;
        SpecIndependence(s, o, next, SpecStep(s, o, m', op, j), rest, session, i', j');
      }
    }
  }

  lemma NothingToSee(s: Settings, o: Oracle, m: Sessions, session: string, tick: nat)
    ensures View(SpecRun(s, o, m, [], tick), [], session) == []
  {
  }

  lemma OwnStep(s: Settings, o: Oracle, m: Sessions, m': Sessions, op: Op, rest: seq<Op>, session: string, i: nat,
                j: nat)
    requires Stateless(o) && Recall(m, session) == Recall(m', session) && SessionName(op.id) == session
    ensures Recall(SpecStep(s, o, m, op, i), session) == Recall(SpecStep(s, o, m', op, j), session)
    ensures var mine := Only([op] + rest, session);
            var j' := if op.Process? then SpecTurn(s, o, m', op, j).tick else j;
            View(SpecRun(s, o, m', mine, j), mine, session)
            == (if op.Process? then [SeenIn(SpecTurn(s, o, m, op, i))] else [])
               + View(SpecRun(s, o, SpecStep(s, o, m', op, j), Only(rest, session), j'), Only(rest, session), session)
  {
    assert ([op] + rest)[1..] == rest;
    var alone, next := Only(rest, session), SpecStep(s, o, m', op, j);
    assert Only([op] + rest, session) == [op] + alone;
    SpecRunStep(s, o, m', op, alone, j);
    if op.Process? {
      TurnsAgree(s, o, m, m', op, i, j);
      var t := SpecTurn(s, o, m', op, j);
      ViewOfProcess(t, SpecRun(s, o, next, alone, t.tick), op, alone, session);
    } else {
      ViewOfClear(SpecRun(s, o, next, alone, j), op, alone, session);
    }
  }

  /** Operations on one session never change what another session sees, now or later. */
  lemma SessionsAreIndependent(s: Settings, o: Oracle, m: Memory, ops: seq<Op>, session: string, tick: nat)
    requires BufferIsCurrent(s, m) && Stateless(o)
    ensures View(Run(s, o, m, ops, tick), ops, session)
         == View(Run(s, o, m, Only(ops, session), tick), Only(ops, session), session)
  {
    var a := Represents(s, m);
    RunRefines(s, o, m, a, ops, tick);
    RunRefines(s, o, m, a, Only(ops, session), tick);
    SpecIndependence(s, o, a, a, ops, session, tick, tick);
  }

  // ---------- Safety over whole runs ----------

  ghost predicate Sound(m: Sessions, k: nat) {
    forall session: string :: WellFormed(Recall(m, session)) && GroupsAtMost(Recall(m, session), k)
  }

  function HistoryBound(s: Settings, k: nat): int {
    Max(0, Max(s.trimThreshold, s.maxContext + k)) + 2 + Max(0, s.toolLimit) * (k + 1)
  }

  /** A turn whose every request is tool-well-formed, whose history stays in bounds, and that
      takes at most as many requests as tool rounds are allowed. */
  ghost predicate SafeTurn(s: Settings, t: Turn, k: nat) {
    && (forall i :: 0 <= i < |t.sent| ==> WellFormed(t.sent[i]))
    && WellFormed(t.history) && GroupsAtMost(t.history, k)
    && |t.history| <= HistoryBound(s, k)
    && |t.sent| <= Max(0, s.toolLimit)
  }

  lemma SpecTurnIsSafe(s: Settings, o: Oracle, m: Sessions, op: Op, tick: nat, k: nat)
    requires Sound(m, k) && CallsAtMost(o, k) && op.Process?
    ensures SafeTurn(InForce(s, op), SpecTurn(s, o, m, op, tick), k)
  {
    hide Trimmed, WellFormed, Rounds, SessionName;
    var now, h := InForce(s, op), Recall(m, SessionName(op.id));
    TrimmedKeeps(now, h, k);
    ConverseWellFormed(o, op.prompt, s.toolLimit, Trimmed(now, h), op.user, tick);
    TurnIsBounded(now, o, Trimmed(now, h), op.user, tick, k);
  }

  lemma TurnIsBounded(s: Settings, o: Oracle, h: History, user: string, tick: nat, k: nat)
    requires GroupsAtMost(h, k) && CallsAtMost(o, k) && |h| <= Max(0, Max(s.trimThreshold, s.maxContext + k))
    ensures var t := Converse(o, s.prompt, s.toolLimit, h, user, tick);
            && GroupsAtMost(t.history, k) && |t.history| <= HistoryBound(s, k) && |t.sent| <= Max(0, s.toolLimit)
  {
    var h' := h + [Say("user", user)];
    RoundsKeepGroups(o, s.prompt, s.toolLimit, h', 0, tick, k);
    if s.toolLimit >= 0 {
      RoundsGrowth(o, s.prompt, s.toolLimit, h', 0, tick, k);
    }
  }

  lemma StepKeepsSound(s: Settings, o: Oracle, m: Sessions, op: Op, tick: nat, k: nat)
    requires Sound(m, k) && CallsAtMost(o, k)
    ensures Sound(SpecStep(s, o, m, op, tick), k)
  {
    hide SpecTurn;
    if op.Process? { SpecTurnIsSafe(s, o, m, op, tick, k); }
    var next := SpecStep(s, o, m, op, tick);
    forall session: string ensures WellFormed(Recall(next, session)) && GroupsAtMost(Recall(next, session), k) {
      assert WellFormed(Recall(m, session));
    }
  }

  /** The `Process` operations of a run; each has its turn. */
  function Processes(ops: seq<Op>): (ps: seq<Op>)
    ensures forall op <- ps :: op.Process?
  {
    if ops == [] then []
    else (if ops[0].Process? then [ops[0]] else []) + Processes(ops[1..])
  }

  /** Every turn is safe under the settings in force at its time. */
  ghost predicate SafeRun(s: Settings, ops: seq<Op>, turns: seq<Turn>, k: nat) {
    && |turns| == |Processes(ops)|
    && forall i :: 0 <= i < |turns| ==> SafeTurn(InForce(s, Processes(ops)[i]), turns[i], k)
  }

  lemma {:induction false} SpecRunIsSafe(s: Settings, o: Oracle, m: Sessions, ops: seq<Op>, tick: nat, k: nat)
    requires Sound(m, k) && CallsAtMost(o, k)
    ensures SafeRun(s, ops, SpecRun(s, o, m, ops, tick), k)
    decreases |ops|
  {
    hide SafeTurn, SpecTurn, SafeRun, Sound;
    if ops == [] {
      NothingUnsafe(s, k);
    } else {
      var op, next := ops[0], SpecStep(s, o, m, ops[0], tick);
      if op.Process? { SpecTurnIsSafe(s, o, m, op, tick, k); }
      StepKeepsSound(s, o, m, op, tick, k);
      var tick' := if op.Process? then SpecTurn(s, o, m, op, tick).tick else tick;
      SpecRunIsSafe(s, o, next, ops[1..], tick', k);
      var later := SpecRun(s, o, next, ops[1..], tick');
      OneMoreTurn(s, ops, later, SpecTurnOf(s, o, m, op, tick), k);
      assert [] + later == later;
    }
  }

  function SpecTurnOf(s: Settings, o: Oracle, m: Sessions, op: Op, tick: nat): Option<Turn> {
    if op.Process? then Some(SpecTurn(s, o, m, op, tick)) else None
  }

  lemma NothingUnsafe(s: Settings, k: nat)
    ensures SafeRun(s, [], [], k)
  {
  }

  lemma OneMoreTurn(s: Settings, ops: seq<Op>, later: seq<Turn>, turn: Option<Turn>, k: nat)
    requires ops != [] && SafeRun(s, ops[1..], later, k) && (turn.Some? <==> ops[0].Process?)
    requires turn.Some? ==> SafeTurn(InForce(s, ops[0]), turn.value, k)
    ensures SafeRun(s, ops, (if turn.Some? then [turn.value] else []) + later, k)
  {
    hide SafeTurn;
    var ps, turns := Processes(ops), (if turn.Some? then [turn.value] else []) + later;
    if turn.Some? {
      assert forall i :: 0 < i < |ps| ==> ps[i] == Processes(ops[1..])[i - 1];
      assert forall i :: 0 < i < |turns| ==> turns[i] == later[i - 1];
    } else {
      assert turns == later;
    }
  }

  /** In every run, every request sent to the gateway is tool-well-formed and every saved
      history is bounded, whatever the upstream answers, wherever it fails, and however prompt
      and context limit change from one message to the next. */
  lemma EveryRunIsSafe(s: Settings, o: Oracle, m: Memory, ops: seq<Op>, tick: nat, k: nat)
    requires BufferIsCurrent(s, m) && CallsAtMost(o, k)
    requires forall session: string ::
               WellFormed(OnDisk(s, m.disk, session)) && GroupsAtMost(OnDisk(s, m.disk, session), k)
    ensures SafeRun(s, ops, Run(s, o, m, ops, tick), k)
  {
    var a := Represents(s, m);
    RunRefines(s, o, m, a, ops, tick);
    forall session: string ensures WellFormed(Recall(a, session)) && GroupsAtMost(Recall(a, session), k) {
      assert OnDisk(s, m.disk, session) == Recall(a, session);
    }
    SpecRunIsSafe(s, o, a, ops, tick, k);
  }
}
