/** Sessions, trimming and persistence around the chat agent (src/http/memory_manager.cpp).

    One in-memory buffer, the agent's history, serves all sessions; behind it stands one file
    per session. The disk is a map from paths to saved records. */
module MemoryManagement {
  import opened Messages
  import opened Wrappers
  import opened ChatAgents

  datatype Settings = Settings(prompt: string, toolLimit: int, trimThreshold: int, maxContext: int, memoryDir: string)

  type Disk = map<string, seq<Json>>

  datatype Memory = Memory(buffer: History, session: string, disk: Disk)

  function SessionName(id: string): string {
    if id == "" then "default" else id
  }

  function HistoryPath(dir: string, session: string): string {
    dir + "/chat_" + session + ".json"
  }

  // ---------- Trimming ----------

  /** The end of the run of tool messages that starts at `i`. */
  function ToolsEnd(h: History, i: nat): (end: nat)
    requires i <= |h|
    ensures i <= end <= |h|
    decreases |h| - i
  {
    if i < |h| && IsTool(h[i]) then ToolsEnd(h, i + 1) else i
  }

  /** How far trimming gets from `cut`, when it may remove `excess` messages in all. */
  function Cut(h: History, excess: int, cut: nat): (r: nat)
    requires cut <= |h|
    ensures cut <= r <= |h|
    decreases |h| - cut
  {
    if cut == |h| || cut >= excess then cut
    else if !IsHead(h[cut]) then Cut(h, excess, cut + 1)
    else
      var end := ToolsEnd(h, cut + 1);
      if end <= excess then Cut(h, excess, end) else cut
  }

  function Trimmed(s: Settings, h: History): History {
    var excess := |h| - s.maxContext;
    if |h| <= s.trimThreshold || excess <= 0 then h else h[Cut(h, excess, 0)..]
  }

  // ---------- One operation, on values ----------

  function FileOf(disk: Disk, path: string): Option<seq<Json>> {
    if path in disk then Some(disk[path]) else None
  }

  /** The history a session would be resumed with from disk. */
  function OnDisk(s: Settings, disk: Disk, session: string): History {
    match FileOf(disk, HistoryPath(s.memoryDir, session))
    case None => []
    case Some(file) => Loaded(file)
  }

  /** The history `Process` starts from: the buffer when it belongs to this session and holds
      something, else the file. */
  function Resumed(s: Settings, m: Memory, session: string): History {
    if session == m.session && m.buffer != [] then m.buffer else OnDisk(s, m.disk, session)
  }

  function ServeTurn(s: Settings, o: Oracle, m: Memory, user: string, id: string, tick: nat): Turn {
    Converse(o, s.prompt, s.toolLimit, Trimmed(s, Resumed(s, m, SessionName(id))), user, tick)
  }

  function Serve(s: Settings, o: Oracle, m: Memory, user: string, id: string, tick: nat): Memory {
    var h := ServeTurn(s, o, m, user, id, tick).history;
    Memory(h, SessionName(id), m.disk[HistoryPath(s.memoryDir, SessionName(id)) := Records(h)])
  }

  function Forget(s: Settings, m: Memory, id: string): Memory {
    Memory([], m.session, m.disk - {HistoryPath(s.memoryDir, SessionName(id))})
  }

  // ---------- The manager object ----------

  class MemoryManager {
    const agent: ChatAgent
    const memoryDir: string
    const trimThreshold: int
    var maxContextMessages: int
    var disk: Disk

    function View(): Memory
      reads this, agent
    {
      Memory(agent.history, agent.sessionId, disk)
    }

    function CurrentSettings(): Settings
      reads this, agent
    {
      Settings(agent.systemPrompt, agent.maxToolCalls, trimThreshold, maxContextMessages, memoryDir)
    }

    constructor (agent: ChatAgent, dir: string, disk: Disk, trimThreshold: int := 30)
      ensures this.agent == agent && View() == Memory(agent.history, agent.sessionId, disk)
      ensures CurrentSettings() == Settings(agent.systemPrompt, agent.maxToolCalls, trimThreshold, 20, dir)
    {
      this.agent, memoryDir, this.disk := agent, dir, disk;
      this.trimThreshold, maxContextMessages := trimThreshold, 20;
    }

    method SetMaxContextMessages(n: int)
      modifies this`maxContextMessages
      ensures CurrentSettings() == old(CurrentSettings()).(maxContext := n) && View() == old(View())
    {
      maxContextMessages := n;
    }

    method Process(user: string, id: string, o: Oracle, start: nat)
      returns (response: Response, ghost sent: seq<History>, tick: nat)
      modifies this`disk, agent
      ensures CurrentSettings() == old(CurrentSettings())
      ensures View() == Serve(CurrentSettings(), o, old(View()), user, id, start)
      ensures Turn(agent.history, response, sent, tick) == ServeTurn(CurrentSettings(), o, old(View()), user, id, start)
    {
      var session := SessionName(id);
      if session != agent.sessionId {
        agent.ClearHistory();
      }
      agent.sessionId := session;
      var path := HistoryPath(memoryDir, session);
      if agent.history == [] {
        var _ := agent.LoadHistory(FileOf(disk, path));
      }
      TrimContext();
      response, sent, tick := agent.Process(user, o, start);
      var file := agent.SaveHistory();
      disk := disk[path := file];
    }

    method ClearSession(id: string)
      modifies this`disk, agent`history
      ensures CurrentSettings() == old(CurrentSettings())
      ensures View() == Forget(CurrentSettings(), old(View()), id)
    {
      agent.ClearHistory();
      disk := disk - {HistoryPath(memoryDir, SessionName(id))};
    }

    method TrimContext()
      modifies agent`history
      ensures agent.history == Trimmed(CurrentSettings(), old(agent.history))
    {
      hide Cut;
      if |agent.history| <= trimThreshold {
        return;
      }
      var excess := |agent.history| - maxContextMessages;
      if excess <= 0 {
        return;
      }
      var cut := FindCut(agent.history, excess);
      if cut > 0 {
        agent.history := agent.history[cut..];
      }
    }

    static method FindCut(history: History, excess: int) returns (cut: nat)
      requires excess > 0
      ensures cut == Cut(history, excess, 0) <= |history|
    {
      hide IsHead, IsTool;
      var removed, n := 0, |history|;
      cut := 0;
      while cut < n && removed < excess
        invariant 0 <= cut == removed <= n
        invariant Cut(history, excess, 0) == Cut(history, excess, cut)
      {
        if IsHead(history[cut]) {
          var end := cut + 1;
          while end < n && IsTool(history[end])
            invariant cut < end <= n
            invariant ToolsEnd(history, cut + 1) == ToolsEnd(history, end)
          {
            end := end + 1;
          }
          if removed + (end - cut) > excess {
            break;
          }
          removed := removed + (end - cut);
          cut := end;
        } else {
          cut := cut + 1;
          removed := removed + 1;
        }
      }
    }
  }

  // ---------- Trimming removes the longest whole-group prefix ----------

  /** `c` splits `h` between groups. */
  predicate Boundary(h: History, c: nat) {
    c <= |h| && WellFormed(h[..c]) && WellFormed(h[c..])
  }

  lemma {:induction false} ToolsEndAt(h: History, i: nat, end: nat)
    requires i <= end <= |h|
    requires forall j :: i <= j < end ==> IsTool(h[j])
    requires end < |h| ==> !IsTool(h[end])
    ensures ToolsEnd(h, i) == end
    decreases end - i
  {
    if i < end { ToolsEndAt(h, i + 1, end); }
  }

  /** The scan for tool messages finds the whole group and nothing more. */
  lemma GroupFound(h: History, i: nat)
    requires Boundary(h, i) && i < |h|
    ensures i + GroupSize(h[i]) <= |h| && Boundary(h, i + GroupSize(h[i]))
    ensures IsHead(h[i]) ==> ToolsEnd(h, i + 1) == i + GroupSize(h[i])
  {
    hide StartsWithGroup, GroupSize, IsHead, IsTool;
    var rest, n := h[i..], GroupSize(h[i]);
    FirstGroup(rest);
    WellFormedConcat(h[..i], rest[..n]);
    assert h[..i] + rest[..n] == h[..i + n] && rest[n..] == h[i + n..];
    if IsHead(h[i]) {
      assert forall j :: i + 1 <= j < i + n ==> h[j] == rest[j - i];
      ToolsEndAt(h, i + 1, i + n);
    }
  }

  lemma FirstGroup(h: History)
    requires WellFormed(h) && h != []
    ensures var n := GroupSize(h[0]);
            && n <= |h| && WellFormed(h[..n]) && WellFormed(h[n..])
            && (IsHead(h[0]) ==> forall j :: 1 <= j < n ==> IsTool(h[j]))
            && (n < |h| ==> !IsTool(h[n]))
  {
    var n := GroupSize(h[0]);
    GroupAlone(h);
    if IsHead(h[0]) { GroupReplies(h); }
    hide GroupSize, IsHead, Answered;
    assert n < |h| ==> h[n..][0] == h[n];
  }

  /** A group standing alone is well-formed. */
  lemma GroupAlone(h: History)
    requires StartsWithGroup(h)
    ensures WellFormed(h[..GroupSize(h[0])])
  {
    hide IsHead, IsTool, Answered, GroupSize;
    var n := GroupSize(h[0]);
    var group := h[..n];
    assert group[0] == h[0] && group[1..n] == h[1..n] && group[n..] == [];
  }

  lemma GroupReplies(h: History)
    requires StartsWithGroup(h) && IsHead(h[0])
    ensures forall j :: 1 <= j < GroupSize(h[0]) ==> IsTool(h[j])
  {
    hide IsTool, IsHead;
    var n := GroupSize(h[0]);
    var replies := h[1..n];
    forall j | 1 <= j < n ensures IsTool(h[j]) {
      assert IsTool(replies[j - 1]);
    }
  }

  /** No boundary lies strictly inside a group. */
  lemma NextBoundary(h: History, i: nat, c: nat)
    requires Boundary(h, i) && Boundary(h, c) && i < c
    ensures c >= i + GroupSize(h[i])
  {
    assert h[..c] == h[..i] + h[i..c];
    WellFormedCancel(h[..i], h[i..c]);
    assert h[i..c][0] == h[i];
  }

  lemma BoundaryInside(h: History, c: nat)
    requires Boundary(h, c)
    ensures c <= |h|
  {
  }

  lemma {:induction false} CutFrom(h: History, excess: int, cut: nat, k: nat)
    requires Boundary(h, cut) && cut <= excess && GroupsAtMost(h, k)
    ensures var r := Cut(h, excess, cut);
            && Boundary(h, r) && r <= excess
            && (forall c: nat :: Boundary(h, c) && c <= excess ==> c <= r)
            && (r == |h| || excess <= r + k)
    decreases |h| - cut
  {
    hide Boundary;
    forall c: nat | Boundary(h, c) ensures c <= |h| {
      BoundaryInside(h, c);
    }
    if cut < |h| {
      var n := GroupSize(h[cut]);
      GroupFound(h, cut);
      if cut + n <= excess {
        CutFrom(h, excess, cut + n, k);
      } else {
        forall c: nat | Boundary(h, c) && c <= excess ensures c <= cut {
          if c > cut { NextBoundary(h, cut, c); }
        }
      }
    }
  }

  /** On a well-formed history, what is cut off is the longest prefix of whole groups that is
      no longer than the excess; it falls short of the excess by at most one group. */
  lemma TrimIsLongest(h: History, excess: nat, k: nat)
    requires WellFormed(h) && GroupsAtMost(h, k)
    ensures var cut := Cut(h, excess, 0);
            && Boundary(h, cut) && cut <= excess
            && (forall c: nat :: Boundary(h, c) && c <= excess ==> c <= cut)
            && (cut == |h| || excess <= cut + k)
  {
    assert h[..0] == [] && h[0..] == h;
    CutFrom(h, excess, 0, k);
  }

  lemma TrimmedKeeps(s: Settings, h: History, k: nat)
    requires WellFormed(h) && GroupsAtMost(h, k)
    ensures WellFormed(Trimmed(s, h)) && GroupsAtMost(Trimmed(s, h), k)
    ensures |Trimmed(s, h)| <= Max(0, Max(s.trimThreshold, s.maxContext + k))
    ensures |h| <= Max(s.trimThreshold, s.maxContext) ==> Trimmed(s, h) == h
    ensures |h| > s.trimThreshold ==> |Trimmed(s, h)| >= Min(|h|, Max(0, s.maxContext))
  {
    var excess := |h| - s.maxContext;
    if |h| > s.trimThreshold && excess > 0 {
      TrimIsLongest(h, excess, k);
    }
  }

  lemma {:induction false} SomeGroupBound(h: History) returns (k: nat)
    ensures GroupsAtMost(h, k)
  {
    k := 0;
    for i := 0 to |h|
      invariant forall j :: 0 <= j < i ==> GroupSize(h[j]) <= k + 1
    {
      if GroupSize(h[i]) > k + 1 { k := GroupSize(h[i]); }
    }
  }

  /** Trimming only ever drops the oldest messages. When a well-formed history is over both limits,
      what goes is a whole number of groups, no more messages than the excess, and no larger number
      of whole groups would do. */
  lemma TrimDropsOldest(s: Settings, h: History)
    ensures var c := |h| - |Trimmed(s, h)|;
            && c >= 0 && Trimmed(s, h) == h[c..]
            && (|h| <= s.trimThreshold || |h| <= s.maxContext ==> c == 0)
            && (WellFormed(h) && |h| > s.trimThreshold && |h| > s.maxContext ==>
                  LongestCut(h, |h| - s.maxContext, c))
  {
    hide LongestCut, WellFormed, Cut;
    var excess := |h| - s.maxContext;
    if WellFormed(h) && |h| > s.trimThreshold && excess > 0 {
      CutIsLongest(h, excess);
    }
  }

  /** `c` splits `h` between groups, within the excess, and no later such place is. */
  ghost predicate LongestCut(h: History, excess: int, c: nat) {
    && Boundary(h, c) && c <= excess
    && forall d: nat :: Boundary(h, d) && d <= excess ==> d <= c
  }

  lemma CutIsLongest(h: History, excess: nat)
    requires WellFormed(h)
    ensures LongestCut(h, excess, Cut(h, excess, 0))
  {
    hide Boundary, WellFormed, Cut;
    var k := SomeGroupBound(h);
    TrimIsLongest(h, excess, k);
  }

  /** Every session has a file of its own; no name at all is the name "default". */
  lemma SessionsHaveOwnFiles(dir: string, a: string, b: string)
    ensures HistoryPath(dir, SessionName(a)) == HistoryPath(dir, SessionName(b))
       <==> a == b || (a in ["", "default"] && b in ["", "default"])
  {
    var n, x, y := |dir + "/chat_"|, SessionName(a), SessionName(b);
    if HistoryPath(dir, x) == HistoryPath(dir, y) {
      assert |x| == |y|;
      assert HistoryPath(dir, x)[n..n + |x|] == x && HistoryPath(dir, y)[n..n + |y|] == y;
    }
  }
}
