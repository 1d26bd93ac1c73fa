/** The cached, rate-limited gateway of src/http/ai_gateway.cpp: cache keys, request bodies and
    the cache branch of `Chat`. The upstream API is an arbitrary function of the request body. */
module Gateways {
  import opened Text
  import opened Messages
  import opened Wrappers
  import C = ResponseCaching
  import TokenBucket

  datatype Request = Request(messages: seq<Message>, model: string, maxTokens: int, temperature: real, tools: Json)

  datatype Config = Config(model: string, maxTokens: int)

  // ---------- Request bodies ----------

  datatype WireMessage = WireMessage(role: string, content: string, toolCallId: string, toolCalls: Json,
                                     reasoning: string)

  datatype Body = Body(model: string, messages: seq<WireMessage>, tools: Json, maxTokens: int, temperature: real)

  /** The fields of a message that are sent; those that are not are blank here. */
  function WireOf(m: Message): WireMessage {
    WireMessage(m.role, m.content, if m.role == "tool" then m.toolCallId else "",
                if m.role == "assistant" then m.toolCalls else Null,
                if m.role == "assistant" then m.reasoning else "")
  }

  function BodyOf(c: Config, q: Request): Body {
    Body(if q.model == "" then c.model else q.model,
         seq(|q.messages|, i requires 0 <= i < |q.messages| => WireOf(q.messages[i])),
         if q.tools == Arr([]) || q.tools == Obj(map[]) then Null else q.tools,
         if q.maxTokens > 0 then q.maxTokens else c.maxTokens, q.temperature)
  }

  // ---------- Cache keys ----------

  function Piece(m: Message): string {
    m.role + ":" + m.content + "|"
  }

  function Key(ms: seq<Message>, model: string): string {
    if ms == [] then model else Piece(ms[0]) + Key(ms[1..], model)
  }

  method BuildCacheKey(q: Request) returns (key: string)
    ensures key == Key(q.messages, q.model)
  {
    hide Piece;
    key := "";
    for i := 0 to |q.messages|
      invariant Key(q.messages, q.model) == key + Key(q.messages[i..], q.model)
    {
      ghost var left := q.messages[i..];
      assert left[0] == q.messages[i] && left[1..] == q.messages[i + 1..];
      Assoc(key, Piece(q.messages[i]), Key(left[1..], q.model));
      key := key + Piece(q.messages[i]);
    }
    key := key + q.model;
  }

  /** A bar followed, before the next bar, by a colon: what a message boundary looks like. */
  predicate LooksSplit(content: string, i: int, j: int) {
    0 <= i < j < |content| && content[i] == '|' && content[j] == ':'
    && forall k :: i < k < j ==> content[k] !in ":|"
  }

  ghost predicate Splittable(content: string) {
    exists i, j :: LooksSplit(content, i, j)
  }

  predicate CleanRole(role: string) {
    Free(role, ':') && Free(role, '|')
  }

  /** No role has a colon, none but the first has a bar, no content looks split, and the model has
      no bar. */
  ghost predicate Keyable(ms: seq<Message>, model: string) {
    && Free(model, '|')
    && (forall i :: 0 <= i < |ms| ==> Free(ms[i].role, ':') && !Splittable(ms[i].content))
    && (forall i :: 0 < i < |ms| ==> Free(ms[i].role, '|'))
  }

  /** Text that starts like a message, or is only a model name. */
  ghost predicate StartsPiece(s: string, colon: int) {
    0 <= colon < |s| && s[colon] == ':' && forall k :: 0 <= k < colon ==> s[k] !in ":|"
  }

  lemma RolesAgree(r1: string, s1: string, r2: string, s2: string)
    requires Free(r1, ':') && Free(r2, ':') && r1 + ":" + s1 == r2 + ":" + s2
    ensures r1 == r2 && s1 == s2
  {
    var s := r1 + ":" + s1;
    assert s[|r1|] == ':' && s[|r2|] == ':';
    assert forall k :: 0 <= k < |r1| ==> s[k] == r1[k];
    assert forall k :: 0 <= k < |r2| ==> s[k] == r2[k];
    assert |r1| == |r2|;
    assert s[..|r1|] == r1 && s[..|r2|] == r2;
    assert s[|r1| + 1..] == s1 && s[|r2| + 1..] == s2;
  }

  /** A content that ends later than another for the same text would contain a boundary. */
  lemma LongerIsSplittable(c1: string, x1: string, c2: string, x2: string, colon: int)
    requires c1 + "|" + x1 == c2 + "|" + x2 && |c1| < |c2|
    requires Free(x1, '|') || StartsPiece(x1, colon)
    ensures Splittable(c2)
  {
    var s := c1 + "|" + x1;
    assert forall k :: 0 <= k < |c2| ==> s[k] == c2[k];
    assert s[|c2|] == '|' && s[|c1|] == '|';
    assert forall k :: 0 <= k < |x1| ==> s[|c1| + 1 + k] == x1[k];
    assert x1[|c2| - |c1| - 1] == '|';
    assert colon < |c2| - |c1| - 1;
    assert forall k :: |c1| < k < |c1| + 1 + colon ==> c2[k] == x1[k - |c1| - 1];
    assert c2[|c1| + 1 + colon] == x1[colon];
    assert LooksSplit(c2, |c1|, |c1| + 1 + colon);
  }

  lemma KeyStart(ms: seq<Message>, model: string) returns (colon: int)
    requires Keyable(ms, model) && (ms != [] ==> Free(ms[0].role, '|'))
    ensures Free(Key(ms, model), '|') || StartsPiece(Key(ms, model), colon)
  {
    colon := -1;
    if ms != [] {
      colon := |ms[0].role|;
      var s := Key(ms, model);
      assert forall k :: 0 <= k < colon ==> s[k] == ms[0].role[k];
      assert s[colon] == ':';
    }
  }

  lemma ContentsAgree(c1: string, x1: string, c2: string, x2: string, colon1: int, colon2: int)
    requires c1 + "|" + x1 == c2 + "|" + x2 && !Splittable(c1) && !Splittable(c2)
    requires Free(x1, '|') || StartsPiece(x1, colon1)
    requires Free(x2, '|') || StartsPiece(x2, colon2)
    ensures c1 == c2 && x1 == x2
  {
    hide Splittable, StartsPiece, Free;
    if |c1| < |c2| { LongerIsSplittable(c1, x1, c2, x2, colon1); }
    if |c2| < |c1| { LongerIsSplittable(c2, x2, c1, x1, colon2); }
    var s := c1 + "|" + x1;
    assert s[..|c1|] == c1 && s[..|c2|] == c2;
    assert s[|c1| + 1..] == x1 && s[|c2| + 1..] == x2;
  }

  ghost predicate SameText(a: seq<Message>, b: seq<Message>) {
    |a| == |b| && forall i :: 0 <= i < |a| ==> a[i].role == b[i].role && a[i].content == b[i].content
  }

  lemma KeyHasBar(ms: seq<Message>, model: string)
    requires ms != []
    ensures !Free(Key(ms, model), '|')
  {
    var s, n := Key(ms, model), |ms[0].role| + 1 + |ms[0].content|;
    assert s[n] == Piece(ms[0])[n] == '|';
  }

  /** Equal keys come only from requests with the same roles, contents and model. */
  lemma {:induction false} KeyDetermines(a: seq<Message>, ma: string, b: seq<Message>, mb: string)
    requires Keyable(a, ma) && Keyable(b, mb) && Key(a, ma) == Key(b, mb)
    ensures SameText(a, b) && ma == mb
    decreases |a|
  {
    if a == [] || b == [] {
      if a != [] { KeyHasBar(a, ma); }
      if b != [] { KeyHasBar(b, mb); }
    } else {
      hide Splittable, StartsPiece;
      var x, y := Key(a[1..], ma), Key(b[1..], mb);
      PieceThen(a[0], x);
      PieceThen(b[0], y);
      RolesAgree(a[0].role, a[0].content + "|" + x, b[0].role, b[0].content + "|" + y);
      var ca := KeyStart(a[1..], ma);
      var cb := KeyStart(b[1..], mb);
      ContentsAgree(a[0].content, x, b[0].content, y, ca, cb);
      KeyDetermines(a[1..], ma, b[1..], mb);
      SameTextCons(a, b);
    }
  }

  lemma SameTextCons(a: seq<Message>, b: seq<Message>)
    requires a != [] && b != [] && a[0].role == b[0].role && a[0].content == b[0].content && SameText(a[1..], b[1..])
    ensures SameText(a, b)
  {
    forall i | 0 <= i < |a| ensures a[i].role == b[i].role && a[i].content == b[i].content {
      if i > 0 { assert a[i] == a[1..][i - 1] && b[i] == b[1..][i - 1]; }
    }
  }

  lemma PieceThen(m: Message, rest: string)
    ensures Piece(m) + rest == m.role + ":" + (m.content + "|" + rest)
  {
  }

  // ---------- Keyable requests represent all others ----------

  ghost predicate FollowsContent(t: string) {
    Free(t, '|') || exists colon :: StartsPiece(t, colon)
  }

  /** A content can end at a bar after which the text starts like a message, or has no bar. */
  ghost predicate EndsContent(s: string, i: int) {
    0 <= i < |s| && s[i] == '|' && FollowsContent(s[i + 1..])
  }

  /** Text that can be read as a key: a bare model, or a role, its colon, and a bar later on. */
  predicate KeyLike(s: string) {
    Free(s, '|') || (FindChar(s, ':', 0) != -1 && !Free(s[FindChar(s, ':', 0) + 1..], '|'))
  }

  lemma {:induction false} LastBar(s: string) returns (k: nat)
    requires !Free(s, '|')
    ensures EndsContent(s, k)
  {
    var n := |s| - 1;
    if s[n] == '|' {
      k := n;
    } else {
      k := n;
      while s[k] != '|'
        invariant k <= n && forall i :: k < i <= n ==> s[i] != '|'
        decreases k
      {
        k := k - 1;
      }
    }
  }

  /** The first place where a content can end: nothing before it looks split. */
  lemma ContentEnd(s: string) returns (end: nat)
    requires !Free(s, '|')
    ensures EndsContent(s, end) && !Splittable(s[..end])
  {
    hide Free, StartsPiece;
    var last := LastBar(s);
    end := 0;
    while !EndsContent(s, end)
      invariant end <= last && forall i :: 0 <= i < end ==> !EndsContent(s, i)
      decreases last - end
    {
      end := end + 1;
    }
    forall i, j ensures !LooksSplit(s[..end], i, j) {
      if LooksSplit(s[..end], i, j) { SplitStartsPiece(s, end, i, j); }
    }
  }

  lemma SplitStartsPiece(s: string, end: nat, i: int, j: int)
    requires end <= |s| && LooksSplit(s[..end], i, j)
    ensures EndsContent(s, i)
  {
    var t := s[i + 1..];
    assert forall k :: i < k <= j ==> t[k - i - 1] == s[..end][k];
    assert StartsPiece(t, j - i - 1);
  }

  /** What follows a content's end is a key again, and its first role has no bar. */
  lemma AfterContent(t: string)
    requires FollowsContent(t)
    ensures KeyLike(t) && (!Free(t, '|') ==> Free(t[..FindChar(t, ':', 0)], '|'))
  {
    hide FindChar;
    if !Free(t, '|') {
      var colon :| StartsPiece(t, colon);
      assert FindChar(t, ':', 0) == colon;
      var k :| 0 <= k < |t| && t[k] == '|';
      assert t[colon + 1..][k - colon - 1] == '|';
    }
  }

  lemma {:induction false} Canonical(s: string) returns (b: seq<Message>, model: string)
    requires KeyLike(s)
    ensures Key(b, model) == s && Keyable(b, model)
    ensures if Free(s, '|') then b == [] else b != [] && b[0].role == s[..FindChar(s, ':', 0)]
    decreases |s|
  {
    if Free(s, '|') {
      b, model := [], s;
    } else {
      hide Free, FindChar, Splittable, EndsContent, KeyLike, Key, Keyable, Piece;
      var colon, rest := FirstColon(s);
      var end := ContentEnd(rest);
      var t := Later(rest, end);
      var b', model' := Canonical(t);
      model := model';
      var first := Say(s[..colon], rest[..end]);
      b := [first] + b';
      PieceOf(s[..colon], rest[..end], t);
      KeyCons(first, b', model);
      KeyableCons(first, b', model);
    }
  }

  lemma FirstColon(s: string) returns (colon: nat, rest: string)
    requires KeyLike(s) && !Free(s, '|')
    ensures colon < |s| && colon == FindChar(s, ':', 0) && rest == s[colon + 1..] && s == s[..colon] + ":" + rest
    ensures Free(s[..colon], ':') && !Free(rest, '|')
  {
    colon := FindChar(s, ':', 0);
    rest := s[colon + 1..];
  }

  lemma Later(rest: string, end: nat) returns (t: string)
    requires EndsContent(rest, end)
    ensures end < |rest| && rest == rest[..end] + "|" + t && KeyLike(t)
    ensures !Free(t, '|') ==> Free(t[..FindChar(t, ':', 0)], '|')
  {
    t := rest[end + 1..];
    AfterContent(t);
  }

  lemma PieceOf(role: string, content: string, rest: string)
    ensures Piece(Say(role, content)) + rest == role + ":" + (content + "|" + rest)
  {
  }

  lemma KeyCons(m: Message, ms: seq<Message>, model: string)
    ensures Key([m] + ms, model) == Piece(m) + Key(ms, model)
  {
    assert ([m] + ms)[1..] == ms;
  }

  lemma KeyableCons(m: Message, ms: seq<Message>, model: string)
    requires Keyable(ms, model) && (ms != [] ==> Free(ms[0].role, '|'))
    requires Free(m.role, ':') && !Splittable(m.content)
    ensures Keyable([m] + ms, model)
  {
    hide Splittable, Free;
    var all := [m] + ms;
    assert forall i :: 0 < i < |all| ==> all[i] == ms[i - 1];
  }

  lemma KeyIsKeyLike(ms: seq<Message>, model: string)
    requires ms != [] || KeyLike(model)
    ensures KeyLike(Key(ms, model))
  {
    if ms != [] {
      var s, r, n := Key(ms, model), |ms[0].role|, |ms[0].role| + 1 + |ms[0].content|;
      assert s[r] == Piece(ms[0])[r] == ':' && s[n] == Piece(ms[0])[n] == '|';
      var colon := FindChar(s, ':', 0);
      assert s[colon + 1..][n - colon - 1] == '|';
    }
  }

  /** A key ends in its model, with a bar before it if there are messages. */
  lemma {:induction false} KeyEnds(ms: seq<Message>, model: string)
    ensures var s := Key(ms, model); var n := |s| - |model|;
            && n >= 0 && s[n..] == model
            && if ms == [] then n == 0 else n > 0 && s[n - 1] == '|'
  {
    if ms != [] {
      KeyEnds(ms[1..], model);
      var p, later := Piece(ms[0]), Key(ms[1..], model);
      assert (p + later)[|p| + |later| - |model|..] == later[|later| - |model|..];
    }
  }

  lemma NoBarAtEnd(s: string, model: string)
    requires |model| <= |s| && s[|s| - |model|..] == model && Free(model, '|')
    ensures forall k :: |s| - |model| <= k < |s| ==> s[k] != '|'
  {
    assert forall k :: |s| - |model| <= k < |s| ==> s[k] == model[k - (|s| - |model|)];
  }

  lemma ModelsAgree(a: seq<Message>, ma: string, b: seq<Message>, mb: string)
    requires Free(ma, '|') && Free(mb, '|') && Key(a, ma) == Key(b, mb)
    ensures ma == mb
  {
    KeyEnds(a, ma);
    KeyEnds(b, mb);
    NoBarAtEnd(Key(a, ma), ma);
    NoBarAtEnd(Key(b, mb), mb);
  }

  /** The conditions are exact. Every request with messages shares its key with a keyable one, and
      that one has the same text and model only if the request was keyable itself: so any request
      outside the class collides with one inside. As long as the model has no bar, only roles or
      contents differ. A bare model belongs here too if it can be read as a key. */
  lemma EveryKeyIsKeyable(a: seq<Message>, model: string) returns (b: seq<Message>, model': string)
    requires a != [] || KeyLike(model)
    ensures Keyable(b, model') && Key(b, model') == Key(a, model)
    ensures SameText(a, b) && model == model' <==> Keyable(a, model)
    ensures Free(model, '|') ==> model' == model
  {
    hide Key, KeyLike, FindChar;
    KeyIsKeyLike(a, model);
    b, model' := Canonical(Key(a, model));
    if Free(model, '|') { ModelsAgree(a, model, b, model'); }
    if Keyable(a, model) { KeyDetermines(a, model, b, model'); }
  }

  /** A bare model that cannot be read as a key shares its key with no other request. */
  lemma BareModelIsAlone(model: string, b: seq<Message>, mb: string)
    requires !KeyLike(model) && Key(b, mb) == Key([], model)
    ensures b == [] && mb == model
  {
    if b != [] { KeyIsKeyLike(b, mb); }
  }

  /** The collisions one by one, under any model. Splitting a content that looks split gives a
      request with roles just as clean. */
  lemma SplittableCollides(a: seq<Message>, model: string, n: nat) returns (b: seq<Message>)
    requires n < |a| && Splittable(a[n].content)
    requires forall i :: 0 <= i < |a| ==> CleanRole(a[i].role)
    ensures |b| == |a| + 1 && Key(b, model) == Key(a, model)
    ensures forall i :: 0 <= i < |b| ==> CleanRole(b[i].role)
  {
    hide Key;
    var c := a[n].content;
    var i, j :| LooksSplit(c, i, j);
    var first, second := Say(a[n].role, c[..i]), Say(c[i + 1..j], c[j + 1..]);
    assert c == c[..i] + "|" + (c[i + 1..j] + ":" + c[j + 1..]);
    assert Piece(a[n]) == Piece(first) + Piece(second);
    b := a[..n] + [first, second] + a[n + 1..];
    assert CleanRole(second.role);
    KeySplit(a, b, model, n);
  }

  lemma {:induction false} KeySplit(a: seq<Message>, b: seq<Message>, model: string, n: nat)
    requires n < |a| && |b| == |a| + 1 && a[..n] == b[..n] && a[n + 1..] == b[n + 2..]
    requires Piece(a[n]) == Piece(b[n]) + Piece(b[n + 1])
    ensures Key(a, model) == Key(b, model)
    decreases n
  {
    hide Piece;
    if n == 0 {
      assert b[1..][0] == b[1] && b[1..][1..] == b[2..];
      Assoc(Piece(b[0]), Piece(b[1]), Key(b[2..], model));
    } else {
      assert a[0] == a[..n][0] == b[0];
      assert a[1..][..n - 1] == a[..n][1..] && b[1..][..n - 1] == b[..n][1..];
      assert a[1..][n..] == a[n + 1..] && b[1..][n + 1..] == b[n + 2..];
      KeySplit(a[1..], b[1..], model, n - 1);
    }
  }

  /** A colon in a role can as well belong to the content ... */
  lemma RoleColonCollides(a: seq<Message>, model: string, n: nat) returns (b: seq<Message>)
    requires n < |a| && !Free(a[n].role, ':')
    ensures !SameText(a, b) && Key(b, model) == Key(a, model)
  {
    hide Key;
    var r := a[n].role;
    var i :| 0 <= i < |r| && r[i] == ':';
    var m := Say(r[..i], r[i + 1..] + ":" + a[n].content);
    assert r == r[..i] + ":" + r[i + 1..];
    assert Piece(m) == Piece(a[n]);
    b := a[n := m];
    assert b[n].role != a[n].role;
    KeyReplace(a, b, model, n);
  }

  /** ... and a bar in the role of a later message can as well belong to the content before. */
  lemma RoleBarCollides(a: seq<Message>, model: string, n: nat) returns (b: seq<Message>)
    requires 0 < n < |a| && !Free(a[n].role, '|')
    ensures !SameText(a, b) && Key(b, model) == Key(a, model)
  {
    hide Key;
    var r := a[n].role;
    var i :| 0 <= i < |r| && r[i] == '|';
    var before, after := Say(a[n - 1].role, a[n - 1].content + "|" + r[..i]), Say(r[i + 1..], a[n].content);
    assert r == r[..i] + "|" + r[i + 1..];
    assert Piece(a[n - 1]) + Piece(a[n]) == Piece(before) + Piece(after);
    b := a[n - 1 := before][n := after];
    assert b[n].role != a[n].role;
    KeyReplaceTwo(a, b, model, n - 1);
  }

  /** And a bar in a model name can as well end a message: any request's key is that of a bare model name. */
  lemma ModelBarCollides(a: seq<Message>, model: string)
    requires a != []
    ensures Key([], Key(a, model)) == Key(a, model) && !Free(Key(a, model), '|')
  {
    KeyHasBar(a, model);
  }

  lemma {:induction false} KeyReplace(a: seq<Message>, b: seq<Message>, model: string, n: nat)
    requires n < |a| == |b| && Piece(a[n]) == Piece(b[n])
    requires forall i :: 0 <= i < |a| && i != n ==> a[i] == b[i]
    ensures Key(a, model) == Key(b, model)
    decreases n
  {
    hide Piece;
    if n == 0 {
      assert a[1..] == b[1..];
    } else {
      KeyReplace(a[1..], b[1..], model, n - 1);
    }
  }

  lemma {:induction false} KeyReplaceTwo(a: seq<Message>, b: seq<Message>, model: string, n: nat)
    requires n + 1 < |a| == |b| && Piece(a[n]) + Piece(a[n + 1]) == Piece(b[n]) + Piece(b[n + 1])
    requires forall i :: 0 <= i < |a| && i != n && i != n + 1 ==> a[i] == b[i]
    ensures Key(a, model) == Key(b, model)
    decreases n
  {
    hide Piece;
    if n == 0 {
      assert a[1..][0] == a[1] && a[1..][1..] == a[2..] && b[1..][0] == b[1] && b[1..][1..] == b[2..];
      assert a[2..] == b[2..];
      Assoc(Piece(a[0]), Piece(a[1]), Key(a[2..], model));
      Assoc(Piece(b[0]), Piece(b[1]), Key(a[2..], model));
    } else {
      KeyReplaceTwo(a[1..], b[1..], model, n - 1);
    }
  }

  // ---------- The gateway ----------

  type Upstream = Body -> Response

  const RATE_LIMITED := Response(false, "", "", "rate limit exceeded", [])

  /** One `Chat` past the rate limiter with the cache on: `now` is when the cache is asked,
      `later` when a reply is stored. */
  ghost predicate CachedChat(l: C.Limits, g: Config, c: C.Cache, q: Request, now: int, later: int, up: Upstream,
                             r: Response, after: C.Cache)
  {
    var key := Key(q.messages, q.model);
    var hit, left := C.Got(l, c, key, now), C.AfterGet(l, c, key, now);
    if hit.Some? then r == Response(true, hit.value, "", "", []) && after == left
    else
      && r == up(BodyOf(g, q))
      && if r.success && key != "" then C.Sets(l, left, key, r.content, later, after) else after == left
  }

  /** One `Chat` as a whole, the rate limiter's bucket included. */
  ghost predicate Chats(l: C.Limits, g: Config, rate: TokenBucket.Config, b: TokenBucket.Bucket, c: C.Cache,
                        q: Request, at: real, now: int, later: int, up: Upstream,
                        r: Response, b': TokenBucket.Bucket, c': C.Cache)
  {
    var admission := TokenBucket.Step(rate, b, TokenBucket.Allow(at));
    && b' == admission.bucket
    && if !admission.admitted then r == RATE_LIMITED && c' == c
       else CachedChat(l, g, c, q, now, later, up, r, c')
  }

  class AiGateway {
    const config: Config
    const limiter: TokenBucket.RateLimiter
    const cache: C.AiResponseCache?

    constructor (config: Config, limiter: TokenBucket.RateLimiter, cache: C.AiResponseCache?)
      ensures this.config == config && this.limiter == limiter && this.cache == cache
    {
      this.config, this.limiter, this.cache := config, limiter, cache;
    }

    method Chat(q: Request, at: real, now: int, later: int, up: Upstream) returns (r: Response)
      requires cache != null ==> cache.limits.maxEntries >= 1
      modifies limiter, cache
      ensures cache != null ==> Chats(cache.limits, config, limiter.config, old(limiter.View()), old(cache.cache),
                                      q, at, now, later, up, r, limiter.View(), cache.cache)
      ensures cache == null ==>
                r == if TokenBucket.Step(limiter.config, old(limiter.View()), TokenBucket.Allow(at)).admitted
                     then up(BodyOf(config, q)) else RATE_LIMITED
    {
      var admitted := limiter.Allow(at);
      if !admitted {
        return RATE_LIMITED;
      }
      var key := "";
      if cache != null {
        key := BuildCacheKey(q);
        var hit := cache.Get(key, now);
        if hit.Some? {
          return Response(true, hit.value, "", "", []);
        }
      }
      r := up(BodyOf(config, q));
      if r.success && cache != null && key != "" {
        cache.Set(key, r.content, later);
      }
    }
  }

  // ---------- Cache transparency ----------

  /** What the key leaves out and a run of plain requests has in common. */
  datatype Sampling = Sampling(maxTokens: int, temperature: real)

  /** A tool-free request with an unambiguous key. */
  ghost predicate Plain(q: Request, p: Sampling) {
    && Keyable(q.messages, q.model)
    && (forall i :: 0 <= i < |q.messages| ==> q.messages[i] == Say(q.messages[i].role, q.messages[i].content))
    && q.tools == Null && Sampling(q.maxTokens, q.temperature) == p
  }

  lemma PlainKeysDiffer(a: Request, b: Request, p: Sampling)
    requires Plain(a, p) && Plain(b, p) && Key(a.messages, a.model) == Key(b.messages, b.model)
    ensures a == b
  {
    hide Keyable;
    KeyDetermines(a.messages, a.model, b.messages, b.model);
    forall i | 0 <= i < |a.messages| ensures a.messages[i] == b.messages[i] {
      assert a.messages[i].role == b.messages[i].role;
    }
  }

  /** Every entry under a plain request's key is what the upstream answers to that request. */
  ghost predicate Honest(g: Config, up: Upstream, p: Sampling, c: C.Cache) {
    forall q :: Plain(q, p) && Key(q.messages, q.model) in c ==>
      var u := up(BodyOf(g, q)); u.success && u.content == c[Key(q.messages, q.model)].value
  }

  /** A reply that is nothing but a text: no tool calls, no reasoning, no error. */
  predicate OnlyText(r: Response) {
    r.toolCalls == [] && r.reasoning == "" && r.errorMessage == ""
  }

  lemma CachedChatIsHonest(l: C.Limits, g: Config, p: Sampling, c: C.Cache, q: Request, now: int, later: int,
                           up: Upstream, r: Response, after: C.Cache)
    requires CachedChat(l, g, c, q, now, later, up, r, after) && Plain(q, p) && Honest(g, up, p, c)
    ensures Honest(g, up, p, after)
    ensures var u := up(BodyOf(g, q));
            && r.success == u.success && r.content == u.content
            && (r == u <==> C.Got(l, c, Key(q.messages, q.model), now).None? || OnlyText(u))
  {
    hide Key, BodyOf, Plain;
    var key := Key(q.messages, q.model);
    forall a | Plain(a, p) && Key(a.messages, a.model) in after
      ensures var u := up(BodyOf(g, a)); u.success && u.content == after[Key(a.messages, a.model)].value
    {
      if Key(a.messages, a.model) == key { PlainKeysDiffer(a, q, p); }
    }
  }

  /** A hit at work: asked again before its entry expires, a request is answered from the cache, and
      everything but the text of the reply is gone. */
  lemma RepeatIsOnlyText(l: C.Limits, g: Config, c: C.Cache, q: Request, now: int, later: int, up: Upstream,
                         r: Response, c': C.Cache, now': int, later': int, r': Response, c'': C.Cache)
    requires Key(q.messages, q.model) != "" && C.Got(l, c, Key(q.messages, q.model), now).None? && r.success
    requires CachedChat(l, g, c, q, now, later, up, r, c') && Elapsed(later, now') < l.ttlSeconds
    requires CachedChat(l, g, c', q, now', later', up, r', c'')
    ensures r' == Response(true, r.content, "", "", []) && c'' == c'
    ensures r' == r <==> OnlyText(r)
  {
    hide Key, BodyOf;
  }

  /** A run of `Chat` calls: the requests with their clock readings, the replies, and the
      limiter and cache states in between. */
  datatype Exchange = Exchange(q: Request, at: real, now: int, later: int, r: Response)

  /** The constant surroundings of a run. */
  datatype Setting = Setting(limits: C.Limits, config: Config, rate: TokenBucket.Config)

  ghost predicate Runs(g: Setting, up: Upstream, xs: seq<Exchange>, buckets: seq<TokenBucket.Bucket>,
                       caches: seq<C.Cache>)
  {
    && |buckets| == |caches| == |xs| + 1 && caches[0] == map[]
    && forall i :: 0 <= i < |xs| ==>
         Chats(g.limits, g.config, g.rate, buckets[i], caches[i], xs[i].q, xs[i].at, xs[i].now, xs[i].later, up,
               xs[i].r, buckets[i + 1], caches[i + 1])
  }

  lemma {:induction false} CachesStayHonest(g: Setting, p: Sampling, up: Upstream, xs: seq<Exchange>,
                                            buckets: seq<TokenBucket.Bucket>, caches: seq<C.Cache>, n: nat)
    requires Runs(g, up, xs, buckets, caches) && (forall i :: 0 <= i < |xs| ==> Plain(xs[i].q, p)) && n <= |xs|
    ensures Honest(g.config, up, p, caches[n])
  {
    hide Plain, CachedChat, TokenBucket.Step;
    if n > 0 {
      CachesStayHonest(g, p, up, xs, buckets, caches, n - 1);
      var x := xs[n - 1];
      assert Chats(g.limits, g.config, g.rate, buckets[n - 1], caches[n - 1], x.q, x.at, x.now, x.later, up,
                   x.r, buckets[n], caches[n]);
      if caches[n] != caches[n - 1] {
        CachedChatIsHonest(g.limits, g.config, p, caches[n - 1], x.q, x.now, x.later, up, x.r, caches[n]);
      }
    }
  }

  /** With a deterministic upstream and plain requests that agree on their sampling parameters,
      caching cannot be noticed in the text: whatever was asked before, expired or evicted, a
      reply that passes the rate limiter succeeds exactly when an uncached one would, with the
      same content. The whole reply is the uncached one exactly when it was not a hit or the
      upstream's reply is only text: a hit drops tool calls, reasoning and error text. */
  lemma CacheIsTransparent(g: Setting, p: Sampling, up: Upstream, xs: seq<Exchange>,
                           buckets: seq<TokenBucket.Bucket>, caches: seq<C.Cache>, n: nat)
    requires Runs(g, up, xs, buckets, caches) && (forall i :: 0 <= i < |xs| ==> Plain(xs[i].q, p)) && n < |xs|
    ensures var x, u := xs[n], up(BodyOf(g.config, xs[n].q));
            if !TokenBucket.Step(g.rate, buckets[n], TokenBucket.Allow(x.at)).admitted
            then x.r == Response(false, "", "", "rate limit exceeded", [])
            else
              && x.r.success == u.success && x.r.content == u.content
              && (x.r == u <==>
                    C.Got(g.limits, caches[n], Key(x.q.messages, x.q.model), x.now).None? || OnlyText(u))
  {
    hide Plain, CachedChat, TokenBucket.Step;
    CachesStayHonest(g, p, up, xs, buckets, caches, n);
    var x := xs[n];
    assert Chats(g.limits, g.config, g.rate, buckets[n], caches[n], x.q, x.at, x.now, x.later, up,
                 x.r, buckets[n + 1], caches[n + 1]);
    if TokenBucket.Step(g.rate, buckets[n], TokenBucket.Allow(x.at)).admitted {
      CachedChatIsHonest(g.limits, g.config, p, caches[n], x.q, x.now, x.later, up, x.r, caches[n + 1]);
    }
  }

  /** No reply is ever stored under an empty key. */
  lemma {:induction false} NothingUnderEmptyKey(g: Setting, up: Upstream, xs: seq<Exchange>,
                                                buckets: seq<TokenBucket.Bucket>, caches: seq<C.Cache>, n: nat)
    requires Runs(g, up, xs, buckets, caches) && n <= |xs|
    ensures "" !in caches[n]
  {
    hide Key, BodyOf, TokenBucket.Step;
    if n > 0 {
      NothingUnderEmptyKey(g, up, xs, buckets, caches, n - 1);
      var x := xs[n - 1];
      assert Chats(g.limits, g.config, g.rate, buckets[n - 1], caches[n - 1], x.q, x.at, x.now, x.later, up,
                   x.r, buckets[n], caches[n]);
    }
  }

  // ---------- What the upstream is asked ----------

  /** The body carries the request: all messages in order with roles and contents, the call that a
      tool message answers, and the calls and reasoning of an assistant message; the model, or the
      configured one; the tools, if any; the token limit, or the configured one. */
  lemma BodyCarriesRequest(c: Config, q: Request)
    ensures var b := BodyOf(c, q);
            && |b.messages| == |q.messages|
            && (forall i :: 0 <= i < |q.messages| ==>
                  var m, sent := q.messages[i], b.messages[i];
                  && sent.role == m.role && sent.content == m.content
                  && sent.toolCallId == (if m.role == "tool" then m.toolCallId else "")
                  && (m.role == "assistant" ==> sent.toolCalls == m.toolCalls && sent.reasoning == m.reasoning)
                  && (m.role != "assistant" ==> sent.toolCalls == Null && sent.reasoning == ""))
            && (q.model != "" ==> b.model == q.model) && (q.model == "" ==> b.model == c.model)
            && b.tools == (if q.tools in [Null, Arr([]), Obj(map[])] then Null else q.tools)
            && (q.maxTokens > 0 ==> b.maxTokens == q.maxTokens) && (q.maxTokens <= 0 ==> b.maxTokens == c.maxTokens)
            && b.temperature == q.temperature
  {
    forall i | 0 <= i < |q.messages| ensures BodyOf(c, q).messages[i] == WireOf(q.messages[i]) {
    }
  }

  /** A plain request that names its model and token limit can be recovered from its body. */
  lemma PlainRequestRecovered(c: Config, q: Request, p: Sampling)
    requires Plain(q, p) && q.model != "" && q.maxTokens > 0
    ensures var b := BodyOf(c, q);
            q == Request(seq(|b.messages|, i requires 0 <= i < |b.messages| =>
                               Message(b.messages[i].role, b.messages[i].content, "", "", "", Null)),
                         b.model, b.maxTokens, b.temperature, b.tools)
  {
    hide Keyable, WireOf;
    BodyCarriesRequest(c, q);
    var b := BodyOf(c, q);
    forall i | 0 <= i < |q.messages|
      ensures q.messages[i] == Message(b.messages[i].role, b.messages[i].content, "", "", "", Null)
    {
      assert q.messages[i] == Say(q.messages[i].role, q.messages[i].content);
    }
  }
}
