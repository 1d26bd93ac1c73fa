/** Route registration and dispatch, after src/http/router.cpp. Handlers are numbered; running
    one is the outcome `Handled`, with the path parameters it is given. */
module Routing {
  import opened Text
  import opened Wrappers

  datatype Method = DELETE | GET | POST | PUT

  /** In the order std::set iterates over their names. */
  const METHODS := [DELETE, GET, POST, PUT]

  function Name(m: Method): string {
    match m
    case DELETE => "DELETE"
    case GET => "GET"
    case POST => "POST"
    case PUT => "PUT"
  }

  function MethodOf(name: string): Option<Method> {
    if name == "GET" then Some(GET)
    else if name == "POST" then Some(POST)
    else if name == "PUT" then Some(PUT)
    else if name == "DELETE" then Some(DELETE)
    else None
  }

  /** A route handler, known by a number. */
  datatype Handler = Handler(id: nat)

  type Params = map<string, string>

  datatype RouteEntry = RouteEntry(pattern: string, handler: Handler)

  datatype Outcome = Handled(handler: Handler, params: Params) | NotAllowed(allow: string) | NotFound

  predicate IsDynamicPattern(pattern: string) {
    FindChar(pattern, ':', 0) != -1
  }

  // ---------- Paths ----------

  function Parts(path: string, pos: nat): seq<string>
    requires pos <= |path|
    decreases |path| - pos
  {
    if pos == |path| then []
    else
      var l := GetLine(path, '/', pos);
      (if l.text == "" then [] else [l.text]) + Parts(path, l.next)
  }

  method SplitPath(path: string) returns (parts: seq<string>)
    ensures parts == Parts(path, 0)
  {
    hide FindChar, GetLine;
    parts := [];
    var pos := 0;
    while pos < |path|
      invariant 0 <= pos <= |path|
      invariant Parts(path, 0) == parts + Parts(path, pos)
    {
      var l := GetLine(path, '/', pos);
      if l.text != "" {
        parts := parts + [l.text];
      }
      pos := l.next;
    }
  }

  predicate IsParam(part: string) {
    part != "" && part[0] == ':'
  }

  /** The parameters collected from the first `n` parts; a later one replaces an earlier one of
      the same name. */
  function Collected(pattern: seq<string>, path: seq<string>, n: nat): Params
    requires n <= |pattern| == |path|
  {
    if n == 0 then map[]
    else
      var before := Collected(pattern, path, n - 1);
      if IsParam(pattern[n - 1]) then before[pattern[n - 1][1..] := path[n - 1]] else before
  }

  predicate PartsMatch(pattern: seq<string>, path: seq<string>) {
    |pattern| == |path| && forall i :: 0 <= i < |path| ==> IsParam(pattern[i]) || pattern[i] == path[i]
  }

  function Matched(pattern: string, path: string): Option<Params> {
    var p, q := Parts(pattern, 0), Parts(path, 0);
    if PartsMatch(p, q) then Some(Collected(p, q, |p|)) else None
  }

  method MatchPath(pattern: string, path: string) returns (params: Option<Params>)
    ensures params == Matched(pattern, path)
  {
    hide Parts;
    var patternParts := SplitPath(pattern);
    var pathParts := SplitPath(path);
    if |patternParts| != |pathParts| {
      return None;
    }
    var matched: Params := map[];
    for i := 0 to |patternParts|
      invariant forall k :: 0 <= k < i ==> IsParam(patternParts[k]) || patternParts[k] == pathParts[k]
      invariant matched == Collected(patternParts, pathParts, i)
    {
      if IsParam(patternParts[i]) {
        matched := matched[patternParts[i][1..] := pathParts[i]];
      } else if patternParts[i] != pathParts[i] {
        return None;
      }
    }
    return Some(matched);
  }

  // ---------- The router object ----------

  datatype Tables = Tables(statics: map<Method, map<string, Handler>>, dynamics: map<Method, seq<RouteEntry>>,
                           pathMethods: map<string, set<Method>>)
  {
    predicate Complete() {
      forall m :: m in statics && m in dynamics
    }
  }

  const NO_ROUTES := Tables(map[DELETE := map[], GET := map[], POST := map[], PUT := map[]],
                            map[DELETE := [], GET := [], POST := [], PUT := []], map[])

  datatype Registration = Registration(verb: Method, path: string, handler: Handler)

  function Methods(index: map<string, set<Method>>, path: string): set<Method> {
    if path in index then index[path] else {}
  }

  function Register(t: Tables, r: Registration): (t': Tables)
    requires t.Complete()
    ensures t'.Complete()
  {
    if IsDynamicPattern(r.path) then
      t.(dynamics := t.dynamics[r.verb := t.dynamics[r.verb] + [RouteEntry(r.path, r.handler)]])
    else
      t.(statics := t.statics[r.verb := t.statics[r.verb][r.path := r.handler]],
         pathMethods := t.pathMethods[r.path := Methods(t.pathMethods, r.path) + {r.verb}])
  }

  function FirstMatch(routes: seq<RouteEntry>, path: string): Option<Outcome> {
    if routes == [] then None
    else match Matched(routes[0].pattern, path)
      case Some(params) => Some(Handled(routes[0].handler, params))
      case None => FirstMatch(routes[1..], path)
  }

  function Joined(names: seq<string>): string {
    if names == [] then ""
    else if |names| == 1 then names[0]
    else names[0] + ", " + Joined(names[1..])
  }

  function NamesIn(ms: set<Method>, order: seq<Method>): seq<string> {
    if order == [] then []
    else (if order[0] in ms then [Name(order[0])] else []) + NamesIn(ms, order[1..])
  }

  function Allow(ms: set<Method>): string {
    Joined(NamesIn(ms, METHODS))
  }

  function Routed(t: Tables, verb: string, path: string): Outcome
    requires t.Complete()
  {
    var m := MethodOf(verb);
    if m.Some? && path in t.statics[m.value] then Handled(t.statics[m.value][path], map[])
    else
      var dynamic := if m.Some? then FirstMatch(t.dynamics[m.value], path) else None;
      if dynamic.Some? then dynamic.value
      else if path in t.pathMethods then NotAllowed(Allow(t.pathMethods[path]))
      else NotFound
  }

  /** The source keeps one static and one dynamic table per method; here each is an entry of
      one map. */
  class Router {
    var tables: Tables

    constructor ()
      ensures tables == NO_ROUTES && tables.Complete()
    {
      tables := NO_ROUTES;
      new;
      forall m ensures m in NO_ROUTES.statics && m in NO_ROUTES.dynamics {
        match m {
          case DELETE => case GET => case POST => case PUT =>
        }
      }
    }

    method RegisterRoute(verb: Method, path: string, handler: Handler)
      requires tables.Complete()
      modifies this
      ensures tables == Register(old(tables), Registration(verb, path, handler))
    {
      if IsDynamicPattern(path) {
        var routes := tables.dynamics[verb] + [RouteEntry(path, handler)];
        tables := tables.(dynamics := tables.dynamics[verb := routes]);
      } else {
        tables := tables.(statics := tables.statics[verb := tables.statics[verb][path := handler]]);
        var tracked := Methods(tables.pathMethods, path) + {verb};
        tables := tables.(pathMethods := tables.pathMethods[path := tracked]);
      }
    }

    method Route(verb: string, path: string) returns (r: Outcome)
      requires tables.Complete()
      ensures r == Routed(tables, verb, path)
    {
      var m := MethodOf(verb);
      if m.Some? && path in tables.statics[m.value] {
        return Handled(tables.statics[m.value][path], map[]);
      }
      if m.Some? {
        var dynamic := MatchDynamic(m.value, path);
        if dynamic.Some? {
          return dynamic.value;
        }
      }
      if path in tables.pathMethods {
        var allow := AllowedMethods(path);
        return NotAllowed(allow);
      }
      return NotFound;
    }

    method MatchDynamic(m: Method, path: string) returns (r: Option<Outcome>)
      requires tables.Complete()
      ensures r == FirstMatch(tables.dynamics[m], path)
    {
      hide Matched;
      var routes := tables.dynamics[m];
      for i := 0 to |routes|
        invariant FirstMatch(routes, path) == FirstMatch(routes[i..], path)
      {
        assert routes[i..][0] == routes[i] && routes[i..][1..] == routes[i + 1..];
        var params := MatchPath(routes[i].pattern, path);
        if params.Some? {
          return Some(Handled(routes[i].handler, params.value));
        }
      }
      return None;
    }

    method AllowedMethods(path: string) returns (allow: string)
      ensures allow == if path in tables.pathMethods then Allow(tables.pathMethods[path]) else ""
    {
      hide Name;
      if path !in tables.pathMethods {
        return "";
      }
      var ms := tables.pathMethods[path];
      allow := "";
      var first := true;
      for i := 0 to |METHODS|
        invariant Joined(NamesIn(ms, METHODS)) == Continued(allow, first, NamesIn(ms, METHODS[i..]))
      {
        ghost var left := METHODS[i..];
        assert left[0] == METHODS[i] && left[1..] == METHODS[i + 1..];
        assert METHODS[i] !in ms ==> NamesIn(ms, left) == NamesIn(ms, left[1..]);
        if METHODS[i] in ms {
          ContinuedStep(allow, first, Name(METHODS[i]), NamesIn(ms, left[1..]));
          if !first {
            allow := allow + ", ";
          }
          allow := allow + Name(METHODS[i]);
          first := false;
        }
      }
    }
  }

  /** The list text once `names` are added to what was written so far. */
  function Continued(text: string, first: bool, names: seq<string>): string {
    if names == [] then text
    else if first then text + Joined(names)
    else text + ", " + Joined(names)
  }

  lemma ContinuedStep(text: string, first: bool, name: string, names: seq<string>)
    ensures Continued(text, first, [name] + names)
         == Continued((if first then text else text + ", ") + name, false, names)
  {
    assert ([name] + names)[1..] == names;
    if names != [] {
      assert Joined([name] + names) == name + ", " + Joined(names);
    }
  }

  // ---------- The index agrees with the tables ----------

  function After(rs: seq<Registration>): (t: Tables)
    ensures t.Complete()
  {
    if rs == [] then
      assert NO_ROUTES.Complete() by { NoRoutesComplete(); }
      NO_ROUTES
    else Register(After(rs[..|rs| - 1]), rs[|rs| - 1])
  }

  lemma NoRoutesComplete()
    ensures NO_ROUTES.Complete()
  {
    forall m: Method ensures m in NO_ROUTES.statics && m in NO_ROUTES.dynamics {
      match m { case DELETE => case GET => case POST => case PUT => }
    }
  }

  /** The handler most recently registered for exactly this method and static path. */
  function LatestStatic(rs: seq<Registration>, m: Method, path: string): Option<Handler> {
    if rs == [] then None
    else
      var r := rs[|rs| - 1];
      if r.verb == m && r.path == path && !IsDynamicPattern(path) then Some(r.handler)
      else LatestStatic(rs[..|rs| - 1], m, path)
  }

  /** The dynamic patterns registered for this method, oldest first. */
  function Dynamics(rs: seq<Registration>, m: Method): seq<RouteEntry> {
    if rs == [] then []
    else
      var r := rs[|rs| - 1];
      Dynamics(rs[..|rs| - 1], m)
        + if r.verb == m && IsDynamicPattern(r.path) then [RouteEntry(r.path, r.handler)] else []
  }

  lemma {:induction false} StaticsAgree(rs: seq<Registration>, m: Method, path: string)
    ensures var t := After(rs);
            LatestStatic(rs, m, path) == if path in t.statics[m] then Some(t.statics[m][path]) else None
  {
    hide IsDynamicPattern;
    if rs == [] { NoRoutes(m); } else { StaticsAgree(rs[..|rs| - 1], m, path); }
  }

  lemma {:induction false} DynamicsAgree(rs: seq<Registration>, m: Method)
    ensures After(rs).dynamics[m] == Dynamics(rs, m)
  {
    hide IsDynamicPattern;
    if rs == [] { NoRoutes(m); } else { DynamicsAgree(rs[..|rs| - 1], m); }
  }

  lemma {:induction false} IndexAgrees(rs: seq<Registration>, m: Method, path: string)
    ensures m in Methods(After(rs).pathMethods, path) <==> path in After(rs).statics[m]
    ensures path in After(rs).pathMethods ==> After(rs).pathMethods[path] != {}
  {
    hide IsDynamicPattern;
    if rs == [] { NoRoutes(m); } else { IndexAgrees(rs[..|rs| - 1], m, path); }
  }

  /** After any registrations: the static table holds the latest handlers, the dynamic table the
      patterns in order, and the index lists a method for a path exactly when that method's
      static table has the path. */
  lemma TablesAgree(rs: seq<Registration>, m: Method, path: string)
    ensures var t := After(rs);
            && LatestStatic(rs, m, path) == (if path in t.statics[m] then Some(t.statics[m][path]) else None)
            && t.dynamics[m] == Dynamics(rs, m)
            && (m in Methods(t.pathMethods, path) <==> path in t.statics[m])
            && (path in t.pathMethods ==> t.pathMethods[path] != {})
  {
    StaticsAgree(rs, m, path);
    DynamicsAgree(rs, m);
    IndexAgrees(rs, m, path);
  }

  lemma NoRoutes(m: Method)
    ensures m in NO_ROUTES.statics && NO_ROUTES.statics[m] == map[]
    ensures m in NO_ROUTES.dynamics && NO_ROUTES.dynamics[m] == []
  {
    match m { case DELETE => case GET => case POST => case PUT => }
  }

  /** Dispatch, said of the registrations themselves: the static handler; else the first
      registered dynamic pattern that matches; else 405 naming exactly the methods that have the
      path; else 404. */
  lemma DispatchMeetsRegistrations(rs: seq<Registration>, verb: string, path: string)
    ensures var t, m := After(rs), MethodOf(verb); var r := Routed(t, verb, path);
            var own := if m.Some? then LatestStatic(rs, m.value, path) else None;
            var dynamic := if m.Some? then FirstMatch(Dynamics(rs, m.value), path) else None;
            if own.Some? then r == Handled(own.value, map[])
            else if dynamic.Some? then r == dynamic.value
            else if exists k :: LatestStatic(rs, k, path).Some? then
              exists ms :: r == NotAllowed(Allow(ms)) && forall k :: k in ms <==> LatestStatic(rs, k, path).Some?
            else r == NotFound
  {
    hide FirstMatch, Allow;
    var t, m := After(rs), MethodOf(verb);
    if m.Some? { TablesAgree(rs, m.value, path); }
    forall k ensures k in Methods(t.pathMethods, path) <==> LatestStatic(rs, k, path).Some? {
      TablesAgree(rs, k, path);
    }
    if path in t.pathMethods {
      TablesAgree(rs, GET, path);
      var k :| k in t.pathMethods[path];
      assert LatestStatic(rs, k, path).Some?;
    }
  }

  /** A 405 never offers the method that was just refused. */
  lemma NotAllowedOffersOthers(rs: seq<Registration>, verb: string, path: string)
    requires Routed(After(rs), verb, path).NotAllowed? && MethodOf(verb).Some?
    ensures MethodOf(verb).value !in Methods(After(rs).pathMethods, path)
  {
    TablesAgree(rs, MethodOf(verb).value, path);
  }

  lemma {:induction false} FirstMatchIsFirst(routes: seq<RouteEntry>, path: string, i: nat)
    requires i < |routes| && Matched(routes[i].pattern, path).Some?
    requires forall k :: 0 <= k < i ==> Matched(routes[k].pattern, path).None?
    ensures FirstMatch(routes, path) == Some(Handled(routes[i].handler, Matched(routes[i].pattern, path).value))
  {
    hide Matched;
    if i > 0 {
      assert forall k :: 0 <= k < i - 1 ==> routes[1..][k] == routes[k + 1];
      FirstMatchIsFirst(routes[1..], path, i - 1);
    }
  }

  // ---------- The Allow header ----------

  function SplitList(s: string): seq<string>
    decreases |s|
  {
    var comma := FindChar(s, ',', 0);
    if comma == -1 || comma + 2 > |s| then [s] else [s[..comma]] + SplitList(s[comma + 2..])
  }

  lemma {:induction false} ListReadBack(names: seq<string>)
    requires names != [] && forall i :: 0 <= i < |names| ==> Free(names[i], ',')
    ensures SplitList(Joined(names)) == names
  {
    hide FindChar;
    var s := Joined(names);
    if |names| == 1 {
      assert FindChar(s, ',', 0) == -1;
    } else {
      var n := |names[0]|;
      assert s == names[0] + (", " + Joined(names[1..]));
      assert forall i :: 0 <= i < n ==> s[i] == names[0][i];
      assert s[n] == ", "[0];
      assert FindChar(s, ',', 0) == n;
      assert s[..n] == names[0] && s[n + 2..] == Joined(names[1..]);
      ListReadBack(names[1..]);
      assert names == [names[0]] + names[1..];
    }
  }

  lemma {:induction false} NamesListed(ms: set<Method>, order: seq<Method>, m: Method)
    ensures Name(m) in NamesIn(ms, order) <==> m in ms && m in order
    ensures forall i :: 0 <= i < |NamesIn(ms, order)| ==> Free(NamesIn(ms, order)[i], ',')
  {
    if order != [] {
      hide Name;
      NamesListed(ms, order[1..], m);
      NamesDiffer(m, order[0]);
      assert order == [order[0]] + order[1..];
    }
  }

  lemma NamesDiffer(a: Method, b: Method)
    ensures Name(a) == Name(b) <==> a == b
    ensures Free(Name(b), ',')
  {
  }

  /** The Allow header, read as a comma-separated list, names exactly the methods indexed. */
  lemma AllowListsMethods(ms: set<Method>, m: Method)
    requires ms != {}
    ensures Name(m) in SplitList(Allow(ms)) <==> m in ms
  {
    hide Name, SplitList, Joined;
    assert m in METHODS by { match m { case DELETE => case GET => case POST => case PUT => } }
    var k :| k in ms;
    assert k in METHODS by { match k { case DELETE => case GET => case POST => case PUT => } }
    NamesListed(ms, METHODS, k);
    NamesListed(ms, METHODS, m);
    ListReadBack(NamesIn(ms, METHODS));
  }

  // ---------- Path parameters ----------

  predicate Segment(s: string) {
    s != "" && Free(s, '/')
  }

  function PathOf(parts: seq<string>): string {
    if parts == [] then "" else "/" + parts[0] + PathOf(parts[1..])
  }

  lemma {:induction false} PartsAreSegments(path: string, pos: nat)
    requires pos <= |path|
    ensures forall i :: 0 <= i < |Parts(path, pos)| ==> Segment(Parts(path, pos)[i])
    decreases |path| - pos
  {
    if pos < |path| {
      hide FindChar;
      PartsAreSegments(path, GetLine(path, '/', pos).next);
    }
  }

  lemma {:induction false} PartsShift(before: string, s: string, k: nat)
    requires k <= |s|
    ensures Parts(before + s, |before| + k) == Parts(s, k)
    decreases |s| - k
  {
    hide Parts, GetLine;
    PartsStep(s, k);
    PartsStep(before + s, |before| + k);
    if k < |s| {
      LineShift(before, s, '/', k);
      PartsShift(before, s, GetLine(s, '/', k).next);
    }
  }

  lemma PartsStep(path: string, pos: nat)
    requires pos <= |path|
    ensures Parts(path, pos)
         == if pos == |path| then []
            else var l := GetLine(path, '/', pos); (if l.text == "" then [] else [l.text]) + Parts(path, l.next)
  {
    hide GetLine;
  }

  lemma SlashSkipped(s: string)
    ensures Parts("/" + s, 0) == Parts(s, 0)
  {
    hide FindChar;
    var path := "/" + s;
    assert path[0] == '/';
    var l := GetLine(path, '/', 0);
    assert l.text == "" && l.next == 1;
    PartsShift("/", s, 0);
  }

  lemma FirstPart(part: string, rest: string)
    requires Segment(part) && (rest == "" || rest[0] == '/')
    ensures Parts(part + rest, 0) == [part] + Parts(rest, 0)
  {
    hide FindChar;
    var path, n := part + rest, |part|;
    assert forall i :: 0 <= i < n ==> path[i] == part[i];
    assert rest != "" ==> path[n] == '/';
    var l := GetLine(path, '/', 0);
    assert |l.text| == n && l.text == part;
    if rest != "" {
      var more := rest[1..];
      assert rest == "/" + more && path == part + "/" + more;
      PartsShift(part + "/", more, 0);
      SlashSkipped(more);
    }
  }

  /** Splitting undoes joining. */
  lemma {:induction false} PathSplits(parts: seq<string>)
    requires forall i :: 0 <= i < |parts| ==> Segment(parts[i])
    ensures Parts(PathOf(parts), 0) == parts
  {
    hide Parts, Segment;
    if parts == [] {
      NoParts();
    } else {
      var part, rest := parts[0], PathOf(parts[1..]);
      assert PathOf(parts) == "/" + (part + rest);
      SlashSkipped(part + rest);
      assert rest == "" || rest[0] == '/';
      FirstPart(part, rest);
      PathSplits(parts[1..]);
    }
  }

  lemma NoParts()
    ensures Parts("", 0) == []
  {
  }

  /** The request path that a pattern describes, with a value for each parameter. */
  function Filled(pattern: seq<string>, values: Params): (parts: seq<string>)
    requires forall i :: 0 <= i < |pattern| && IsParam(pattern[i]) ==> pattern[i][1..] in values
    ensures |parts| == |pattern|
  {
    seq(|pattern|, i requires 0 <= i < |pattern| => if IsParam(pattern[i]) then values[pattern[i][1..]] else pattern[i])
  }

  predicate DistinctNames(pattern: seq<string>) {
    forall i, j :: 0 <= i < j < |pattern| && IsParam(pattern[i]) && IsParam(pattern[j]) ==> pattern[i] != pattern[j]
  }

  lemma {:induction false} CollectedValues(pattern: seq<string>, values: Params, n: nat)
    requires DistinctNames(pattern) && n <= |pattern|
    requires forall i :: 0 <= i < |pattern| && IsParam(pattern[i]) ==> pattern[i][1..] in values
    ensures var c := Collected(pattern, Filled(pattern, values), n);
            && (forall k :: k in c ==> k in values && c[k] == values[k])
            && (forall k :: k in c <==> exists i :: 0 <= i < n && IsParam(pattern[i]) && pattern[i][1..] == k)
  {
    if n > 0 { CollectedValues(pattern, values, n - 1); }
  }

  /** A path built from a pattern matches it, and gives back exactly the values put in. */
  lemma ParametersReadBack(pattern: string, values: Params)
    requires DistinctNames(Parts(pattern, 0))
    requires forall i :: 0 <= i < |Parts(pattern, 0)| && IsParam(Parts(pattern, 0)[i]) ==>
               Parts(pattern, 0)[i][1..] in values && Segment(values[Parts(pattern, 0)[i][1..]])
    requires forall k :: k in values ==>
               exists i :: 0 <= i < |Parts(pattern, 0)| && IsParam(Parts(pattern, 0)[i])
                           && Parts(pattern, 0)[i][1..] == k
    ensures Matched(pattern, PathOf(Filled(Parts(pattern, 0), values))) == Some(values)
  {
    hide Parts, Segment, Collected, PathOf;
    var p := Parts(pattern, 0);
    var filled := Filled(p, values);
    PartsAreSegments(pattern, 0);
    PathSplits(filled);
    assert PartsMatch(p, filled);
    CollectedValues(p, values, |p|);
    assert Collected(p, filled, |p|) == values;
  }

  /** A pattern matches exactly the paths with as many parts whose parts are the pattern's own where
      those do not start with a colon. */
  lemma MatchesExactlyWhen(pattern: string, path: string)
    ensures var p, q := Parts(pattern, 0), Parts(path, 0);
            Matched(pattern, path).Some?
            <==> |p| == |q| && forall i :: 0 <= i < |p| && !(":" <= p[i]) ==> p[i] == q[i]
  {
    hide Parts, Collected;
    var p, q := Parts(pattern, 0), Parts(path, 0);
    forall i | 0 <= i < |p| ensures IsParam(p[i]) <==> ":" <= p[i] {
      ColonFirst(p[i]);
    }
  }

  lemma ColonFirst(part: string)
    ensures IsParam(part) <==> ":" <= part
  {
    assert ":"[0] == ':';
  }

  lemma {:induction false} CollectedFrom(pattern: seq<string>, path: seq<string>, n: nat, i: nat)
    requires n <= |pattern| == |path| && i < n && DistinctNames(pattern) && IsParam(pattern[i])
    ensures var c := Collected(pattern, path, n); pattern[i][1..] in c && c[pattern[i][1..]] == path[i]
  {
    if i < n - 1 {
      CollectedFrom(pattern, path, n - 1, i);
      assert pattern[i] == ":" + pattern[i][1..];
      assert IsParam(pattern[n - 1]) ==> pattern[n - 1] == ":" + pattern[n - 1][1..];
    }
  }

  /** Nothing but its fillings is matched by a pattern with distinct names: the parameters handed to
      the handler, put back into the pattern, give the parts of the path. */
  lemma MatchIsFilling(pattern: string, path: string)
    requires DistinctNames(Parts(pattern, 0)) && Matched(pattern, path).Some?
    ensures var p, values := Parts(pattern, 0), Matched(pattern, path).value;
            && (forall i :: 0 <= i < |p| && IsParam(p[i]) ==> p[i][1..] in values)
            && Parts(path, 0) == Filled(p, values)
  {
    hide Parts, Collected;
    var p, q := Parts(pattern, 0), Parts(path, 0);
    forall i | 0 <= i < |p| && IsParam(p[i])
      ensures p[i][1..] in Collected(p, q, |p|) && Collected(p, q, |p|)[p[i][1..]] == q[i]
    {
      CollectedFrom(p, q, |p|, i);
    }
    assert Filled(p, Matched(pattern, path).value) == q;
  }

  // ---------- From registration to handler ----------

  /** The methods routed are these four, by these names. */
  lemma MethodNames(name: string, m: Method)
    ensures MethodOf(name) == Some(m) <==> name == Name(m)
    ensures MethodOf(name).Some? <==> name in ["GET", "POST", "PUT", "DELETE"]
    ensures MethodOf("GET") == Some(GET) && MethodOf("POST") == Some(POST)
    ensures MethodOf("PUT") == Some(PUT) && MethodOf("DELETE") == Some(DELETE)
  {
  }

  lemma {:induction false} PartsWithin(path: string, pos: nat, i: nat)
    requires pos <= |path| && i < |Parts(path, pos)|
    ensures forall c <- Parts(path, pos)[i] :: c in path
    decreases |path| - pos
  {
    hide GetLine;
    PartsStep(path, pos);
    if pos < |path| {
      var l := GetLine(path, '/', pos);
      if l.text == "" {
        PartsWithin(path, l.next, i);
      } else if i > 0 {
        PartsWithin(path, l.next, i - 1);
      }
    }
  }

  /** A pattern is dynamic exactly when it has a colon; one with a parameter is. */
  lemma DynamicPatterns(pattern: string)
    ensures IsDynamicPattern(pattern) <==> ':' in pattern
    ensures (exists i :: 0 <= i < |Parts(pattern, 0)| && IsParam(Parts(pattern, 0)[i])) ==> IsDynamicPattern(pattern)
  {
    hide FindChar, Parts;
    forall i | 0 <= i < |Parts(pattern, 0)| && IsParam(Parts(pattern, 0)[i]) ensures ':' in pattern {
      PartsWithin(pattern, 0, i);
      assert Parts(pattern, 0)[i][0] in Parts(pattern, 0)[i];
    }
  }

  lemma {:induction false} DynamicsAppend(a: seq<Registration>, b: seq<Registration>, m: Method)
    ensures Dynamics(a + b, m) == Dynamics(a, m) + Dynamics(b, m)
    decreases |b|
  {
    hide IsDynamicPattern;
    if b == [] {
      assert a + b == a;
    } else {
      var n := |b| - 1;
      assert (a + b)[..|a + b| - 1] == a + b[..n] && (a + b)[|a + b| - 1] == b[n];
      DynamicsAppend(a, b[..n], m);
    }
  }

  lemma {:induction false} DynamicsRegistered(rs: seq<Registration>, m: Method, e: RouteEntry)
    requires e in Dynamics(rs, m)
    ensures exists i :: 0 <= i < |rs| && rs[i].verb == m && rs[i].path == e.pattern
  {
    hide IsDynamicPattern;
    var n := |rs| - 1;
    if e in Dynamics(rs[..n], m) {
      DynamicsRegistered(rs[..n], m, e);
      var i :| 0 <= i < n && rs[..n][i].verb == m && rs[..n][i].path == e.pattern;
      assert rs[i].verb == m && rs[i].path == e.pattern;
    } else {
      assert rs[n].verb == m && rs[n].path == e.pattern;
    }
  }

  lemma {:induction false} NoStatic(rs: seq<Registration>, m: Method, path: string)
    requires forall r <- rs :: !(r.verb == m && r.path == path)
    ensures LatestStatic(rs, m, path) == None
  {
    if rs != [] { NoStatic(rs[..|rs| - 1], m, path); }
  }

  lemma {:induction false} LatestStaticIs(before: seq<Registration>, r: Registration, after: seq<Registration>)
    requires ':' !in r.path && forall x <- after :: !(x.verb == r.verb && x.path == r.path)
    ensures LatestStatic(before + [r] + after, r.verb, r.path) == Some(r.handler)
    decreases |after|
  {
    hide IsDynamicPattern;
    DynamicPatterns(r.path);
    var all := before + [r] + after;
    if after == [] {
      assert all[|all| - 1] == r;
    } else {
      var n := |after| - 1;
      assert all[..|all| - 1] == before + [r] + after[..n] && all[|all| - 1] == after[n];
      LatestStaticIs(before, r, after[..n]);
    }
  }

  /** A request for a path registered without a colon runs the handler last registered for it,
      without parameters. */
  lemma StaticRouteServed(before: seq<Registration>, r: Registration, after: seq<Registration>)
    requires ':' !in r.path && forall x <- after :: !(x.verb == r.verb && x.path == r.path)
    ensures Routed(After(before + [r] + after), Name(r.verb), r.path) == Handled(r.handler, map[])
  {
    hide Routed, LatestStatic;
    var rs := before + [r] + after;
    LatestStaticIs(before, r, after);
    MethodNames(Name(r.verb), r.verb);
    DispatchMeetsRegistrations(rs, Name(r.verb), r.path);
  }

  /** A request for a filling of a registered pattern with parameters runs that pattern's handler, with
      the values filled in, unless the path is itself registered or an earlier pattern of the same
      method matches it. */
  lemma ParameterRouteServed(before: seq<Registration>, r: Registration, after: seq<Registration>, values: Params)
    requires var p := Parts(r.path, 0);
             && DistinctNames(p) && (exists i :: 0 <= i < |p| && IsParam(p[i]))
             && (forall i :: 0 <= i < |p| && IsParam(p[i]) ==> p[i][1..] in values && Segment(values[p[i][1..]]))
             && (forall k :: k in values ==> exists i :: 0 <= i < |p| && IsParam(p[i]) && p[i][1..] == k)
    requires var path := PathOf(Filled(Parts(r.path, 0), values));
             && (forall x <- before + [r] + after :: !(x.verb == r.verb && x.path == path))
             && (forall x <- before :: x.verb == r.verb ==> Matched(x.path, path).None?)
    ensures Routed(After(before + [r] + after), Name(r.verb), PathOf(Filled(Parts(r.path, 0), values)))
         == Handled(r.handler, values)
  {
    hide Routed, Parts, Matched, PathOf, Filled, LatestStatic, IsDynamicPattern;
    var rs, path := before + [r] + after, PathOf(Filled(Parts(r.path, 0), values));
    ParametersReadBack(r.path, values);
    DynamicPatterns(r.path);
    NoStatic(rs, r.verb, path);
    DynamicsAppend(before + [r], after, r.verb);
    DynamicsAppend(before, [r], r.verb);
    var routes, i := Dynamics(rs, r.verb), |Dynamics(before, r.verb)|;
    OneDynamic(r);
    forall k | 0 <= k < i ensures Matched(routes[k].pattern, path).None? {
      assert routes[k] == Dynamics(before, r.verb)[k];
      DynamicsRegistered(before, r.verb, routes[k]);
    }
    FirstMatchIsFirst(routes, path, i);
    MethodNames(Name(r.verb), r.verb);
    DispatchMeetsRegistrations(rs, Name(r.verb), path);
  }

  lemma OneDynamic(r: Registration)
    requires IsDynamicPattern(r.path)
    ensures Dynamics([r], r.verb) == [RouteEntry(r.path, r.handler)]
  {
    hide IsDynamicPattern;
    assert [r][..0] == [];
  }
}
