/** Provider failover, after `ModelRouter::Chat` in src/http/model_router.cpp.

    Each provider owns a circuit breaker. What a provider would do during one `Chat` call
    (when its breaker is asked, what its gateway replies, when that reply is reported) is an
    arbitrary `Attempt`, so the theorems hold for every upstream and every clock. */
module ModelRouting {
  import opened CircuitBreakers
  import opened Wrappers

  datatype Reply = Reply(success: bool, content: string, errorMessage: string)

  datatype Provider = Provider(name: string, model: string, weight: int, enabled: bool)

  /** One provider's part in one `Chat` call. The reply may depend on the routed model. */
  datatype Attempt = Attempt(askedAt: int, reply: string -> Reply, reportedAt: int)

  /** A request that reached a provider's gateway, with the model it was sent under. */
  datatype Call = Call(provider: nat, model: string)

  datatype Outcome = Outcome(breakers: seq<Breaker>, calls: seq<Call>, reply: Reply)

  datatype Trial = Trial(breaker: Breaker, calls: seq<Call>, reply: Reply)

  const DEFAULT_LIMITS := Limits(5, 30, 1)
  const NO_PROVIDERS := Reply(false, "", "no providers configured")
  const ALL_DISABLED := Reply(false, "", "all providers disabled")
  const ALL_FAILED := Reply(false, "", "all providers failed")

  function RoutedModel(requested: string, p: Provider): string {
    if requested == "" then p.model else requested
  }

  /** One candidate's turn: skipped when its breaker refuses, else called and its breaker told. */
  function TryOne(p: Provider, id: nat, model: string, b: Breaker, a: Attempt): Trial {
    var grant := Ask(DEFAULT_LIMITS, b, a.askedAt);
    if !grant.allowed then Trial(grant.breaker, [], ALL_FAILED)
    else
      var call := Call(id, RoutedModel(model, p));
      var reply := a.reply(call.model);
      if reply.success then Trial(Succeed(grant.breaker), [call], reply)
      else Trial(Fail(DEFAULT_LIMITS, grant.breaker, a.reportedAt), [call], reply)
  }

  predicate Indices(ps: seq<Provider>, order: seq<nat>) {
    forall i :: 0 <= i < |order| ==> order[i] < |ps|
  }

  /** Try the providers listed in `order` until one succeeds. */
  function Try(ps: seq<Provider>, model: string, bs: seq<Breaker>, order: seq<nat>, world: nat -> Attempt): (r: Outcome)
    requires |bs| == |ps| && Indices(ps, order)
    ensures |r.breakers| == |bs|
    decreases |order|
  {
    if order == [] then Outcome(bs, [], ALL_FAILED)
    else
      var p := order[0];
      var t := TryOne(ps[p], p, model, bs[p], world(p));
      if t.reply.success then Outcome(bs[p := t.breaker], t.calls, t.reply)
      else Prepend(t.calls, Try(ps, model, bs[p := t.breaker], order[1..], world))
  }

  function Prepend(calls: seq<Call>, r: Outcome): Outcome {
    r.(calls := calls + r.calls)
  }

  predicate HeaviestFirst(ps: seq<Provider>, order: seq<nat>)
    requires Indices(ps, order)
  {
    forall i, j :: 0 <= i < j < |order| ==> ps[order[i]].weight >= ps[order[j]].weight
  }

  /** The order in which `Chat` may try providers: the enabled ones, each once, heaviest
      first. The source's sort leaves the order among equal weights open. */
  ghost predicate PriorityOrder(ps: seq<Provider>, order: seq<nat>) {
    && Indices(ps, order)
    && (forall p: nat :: p in order <==> p < |ps| && ps[p].enabled)
    && Distinct(order)
    && HeaviestFirst(ps, order)
  }

  /** What one `Chat` call does, given the order its sort produced. */
  function ChatOutcome(ps: seq<Provider>, model: string, bs: seq<Breaker>, order: seq<nat>,
                       world: nat -> Attempt): (r: Outcome)
    requires |bs| == |ps| && Indices(ps, order)
    ensures |r.breakers| == |bs|
  {
    if ps == [] then Outcome(bs, [], NO_PROVIDERS)
    else if order == [] then Outcome(bs, [], ALL_DISABLED)
    else Try(ps, model, bs, order, world)
  }

  // ---------- The router object ----------

  class ModelRouter {
    var providers: seq<Provider>
    var breakers: seq<CircuitBreaker>

    ghost predicate Valid()
      reads this, breakers
    {
      && |breakers| == |providers|
      && (forall i, j :: 0 <= i < j < |breakers| ==> breakers[i] != breakers[j])
      && (forall b <- breakers :: b.limits == DEFAULT_LIMITS)
    }

    function View(): (bs: seq<Breaker>)
      reads this, breakers
      ensures |bs| == |breakers|
    {
      seq(|breakers|, i requires 0 <= i < |breakers| reads this, breakers => breakers[i].View())
    }

    constructor ()
      ensures Valid() && providers == [] && View() == []
    {
      providers, breakers := [], [];
    }

    method AddProvider(p: Provider)
      requires Valid()
      modifies this
      ensures Valid() && providers == old(providers) + [p] && View() == old(View()) + [FRESH]
      ensures fresh(breakers[|breakers| - 1]) && breakers[..|breakers| - 1] == old(breakers)
    {
      var breaker := new CircuitBreaker(DEFAULT_LIMITS);
      providers := providers + [p];
      breakers := breakers + [breaker];
    }

    method TryProvider(p: nat, model: string, a: Attempt) returns (calls: seq<Call>, reply: Reply)
      requires Valid() && p < |providers|
      modifies breakers[p]
      ensures Trial(breakers[p].View(), calls, reply) == TryOne(providers[p], p, model, old(View()[p]), a)
      ensures View() == old(View())[p := breakers[p].View()]
    {
      var allowed := breakers[p].AllowRequest(a.askedAt);
      if !allowed {
        return [], ALL_FAILED;
      }
      var call := Call(p, RoutedModel(model, providers[p]));
      calls := [call];
      reply := a.reply(call.model);
      if reply.success {
        breakers[p].OnSuccess();
      } else {
        breakers[p].OnFailure(a.reportedAt);
      }
    }

    method Chat(model: string, world: nat -> Attempt) returns (reply: Reply, calls: seq<Call>, ghost order: seq<nat>)
      requires Valid()
      modifies breakers
      ensures Valid()
      ensures PriorityOrder(providers, order)
      ensures Outcome(View(), calls, reply) == ChatOutcome(providers, model, old(View()), order, world)
    {
      if providers == [] {
        return NO_PROVIDERS, [], [];
      }
      var candidates := Enabled(providers);
      candidates := SortByWeight(providers, candidates);
      order := candidates;
      if candidates == [] {
        return ALL_DISABLED, [], [];
      }
      reply, calls := TryInOrder(candidates, model, world);
    }

    method TryInOrder(order: seq<nat>, model: string, world: nat -> Attempt) returns (reply: Reply, calls: seq<Call>)
      requires Valid() && Indices(providers, order)
      modifies breakers
      ensures Valid()
      ensures Outcome(View(), calls, reply) == Try(providers, model, old(View()), order, world)
    {
      hide TryOne;
      calls := [];
      ghost var bs := View();
      for i := 0 to |order|
        invariant Valid() && bs == View()
        invariant Try(providers, model, old(View()), order, world)
               == Prepend(calls, Try(providers, model, bs, order[i..], world))
      {
        assert order[i..][0] == order[i] && order[i..][1..] == order[i + 1..];
        var called;
        called, reply := TryProvider(order[i], model, world(order[i]));
        bs := View();
        calls := calls + called;
        if reply.success {
          return;
        }
      }
      reply := ALL_FAILED;
    }
  }

  method Enabled(ps: seq<Provider>) returns (candidates: seq<nat>)
    ensures Indices(ps, candidates)
    ensures forall p: nat :: p in candidates <==> p < |ps| && ps[p].enabled
    ensures Distinct(candidates)
  {
    candidates := [];
    for n := 0 to |ps|
      invariant Indices(ps, candidates)
      invariant forall p: nat :: p in candidates <==> p < n && ps[p].enabled
      invariant Distinct(candidates)
    {
      if ps[n].enabled {
        candidates := candidates + [n];
      }
    }
  }

  method SortByWeight(ps: seq<Provider>, candidates: seq<nat>) returns (sorted: seq<nat>)
    requires Indices(ps, candidates)
    requires Distinct(candidates)
    ensures forall p :: p in sorted <==> p in candidates
    ensures Distinct(sorted)
    ensures Indices(ps, sorted) && HeaviestFirst(ps, sorted)
  {
    var weight := (p: nat) => if p < |ps| then ps[p].weight as real else 0.0;
    sorted := SortDescending(candidates, weight);
    assert forall i :: 0 <= i < |sorted| ==> sorted[i] in candidates;
    assert forall i :: 0 <= i < |sorted| ==> weight(sorted[i]) == ps[sorted[i]].weight as real;
  }

  // ---------- One call ----------

  /** What provider `p` does in this call if its turn comes: every provider is judged by the
      breaker it had when the call began. */
  function Turn(ps: seq<Provider>, model: string, bs: seq<Breaker>, world: nat -> Attempt, p: nat): Trial
    requires p < |bs| == |ps|
  {
    TryOne(ps[p], p, model, bs[p], world(p))
  }

  /** The gateway calls made when exactly the providers in `turns` get their turn. */
  function CallsOf(ps: seq<Provider>, model: string, bs: seq<Breaker>, turns: seq<nat>,
                   world: nat -> Attempt): seq<Call>
    requires |bs| == |ps| && Indices(ps, turns)
  {
    if turns == [] then []
    else Turn(ps, model, bs, world, turns[0]).calls + CallsOf(ps, model, bs, turns[1..], world)
  }

  /** Where the search stops: at the first provider in `order` whose turn succeeds. */
  function Stop(ps: seq<Provider>, model: string, bs: seq<Breaker>, order: seq<nat>, world: nat -> Attempt): (k: nat)
    requires |bs| == |ps| && Indices(ps, order)
    ensures k <= |order|
    ensures forall i :: 0 <= i < k ==> !Turn(ps, model, bs, world, order[i]).reply.success
    ensures k < |order| ==> Turn(ps, model, bs, world, order[k]).reply.success
  {
    if order == [] || Turn(ps, model, bs, world, order[0]).reply.success then 0
    else 1 + Stop(ps, model, bs, order[1..], world)
  }

  /** The providers that get a turn when the search stops at `k`. */
  function Turns(order: seq<nat>, k: nat): seq<nat>
    requires k <= |order|
  {
    if k == |order| then order else order[..k + 1]
  }

  /** A breaker changed elsewhere affects nobody's turn. */
  lemma {:induction false} TurnsFrame(ps: seq<Provider>, model: string, bs: seq<Breaker>, order: seq<nat>,
                                      world: nat -> Attempt, p: nat, b: Breaker)
    requires |bs| == |ps| && Indices(ps, order) && p < |bs| && forall i :: 0 <= i < |order| ==> order[i] != p
    ensures CallsOf(ps, model, bs[p := b], order, world) == CallsOf(ps, model, bs, order, world)
    ensures Stop(ps, model, bs[p := b], order, world) == Stop(ps, model, bs, order, world)
  {
    if order != [] { TurnsFrame(ps, model, bs, order[1..], world, p, b); }
  }

  /** The breakers once the providers in `turns` had their turn and nobody else was touched. */
  ghost predicate Judged(ps: seq<Provider>, model: string, bs: seq<Breaker>, turns: seq<nat>, world: nat -> Attempt,
                         after: seq<Breaker>)
    requires |bs| == |ps|
  {
    && |after| == |bs|
    && forall p: nat :: p < |bs| ==>
         after[p] == if p in turns then Turn(ps, model, bs, world, p).breaker else bs[p]
  }

  function ReplyAt(ps: seq<Provider>, model: string, bs: seq<Breaker>, order: seq<nat>, world: nat -> Attempt,
                   k: nat): Reply
    requires |bs| == |ps| && Indices(ps, order) && k <= |order|
  {
    if k == |order| then ALL_FAILED else Turn(ps, model, bs, world, order[k]).reply
  }

  /** `Try` gives a turn to everyone up to the first provider that succeeds, and to nobody
      after it. */
  lemma {:induction false} FirstSuccess(ps: seq<Provider>, model: string, bs: seq<Breaker>, order: seq<nat>,
                                        world: nat -> Attempt)
    requires |bs| == |ps| && Indices(ps, order) && Distinct(order)
    ensures var k, r := Stop(ps, model, bs, order, world), Try(ps, model, bs, order, world);
            && r.reply == ReplyAt(ps, model, bs, order, world, k)
            && r.calls == CallsOf(ps, model, bs, Turns(order, k), world)
            && Judged(ps, model, bs, Turns(order, k), world, r.breakers)
    decreases |order|
  {
    hide TryOne, Judged, CallsOf, Stop, ReplyAt, Distinct, Turns;
    if order == [] {
      NoTurnTaken(ps, model, bs, world);
    } else {
      var p, rest := order[0], order[1..];
      var t := Turn(ps, model, bs, world, p);
      DistinctTail(order);
      StopCons(ps, model, bs, p, rest, world);
      if t.reply.success {
        OneTurnTaken(ps, model, bs, p, world);
      } else {
        var bs' := bs[p := t.breaker];
        var j, r := Stop(ps, model, bs, rest, world), Try(ps, model, bs', rest, world);
        FirstSuccess(ps, model, bs', rest, world);
        TurnsFrame(ps, model, bs, rest, world, p, t.breaker);
        TurnsIn(ps, rest, j);
        TurnsFrame(ps, model, bs, Turns(rest, j), world, p, t.breaker);
        CallsOfCons(ps, model, bs, p, Turns(rest, j), world);
        JudgedLater(ps, model, bs, Turns(rest, j), world, p, r.breakers);
        LaterReply(ps, model, bs, p, rest, world, j);
      }
    }
  }

  lemma StopCons(ps: seq<Provider>, model: string, bs: seq<Breaker>, p: nat, rest: seq<nat>, world: nat -> Attempt)
    requires |bs| == |ps| && Indices(ps, rest) && p < |ps|
    ensures Indices(ps, [p] + rest)
    ensures var t, order := Turn(ps, model, bs, world, p), [p] + rest;
            var k := Stop(ps, model, bs, order, world);
            if t.reply.success
            then k == 0 && Turns(order, k) == [p] && ReplyAt(ps, model, bs, order, world, k) == t.reply
            else var j := Stop(ps, model, bs, rest, world); k == j + 1 && Turns(order, k) == [p] + Turns(rest, j)
  {
    hide TryOne;
    var order := [p] + rest;
    assert order[1..] == rest && order[..1] == [p];
  }

  lemma TurnsIn(ps: seq<Provider>, order: seq<nat>, k: nat)
    requires k <= |order| && Indices(ps, order)
    ensures Indices(ps, Turns(order, k)) && forall i :: 0 <= i < |Turns(order, k)| ==> Turns(order, k)[i] in order
  {
  }

  lemma LaterReply(ps: seq<Provider>, model: string, bs: seq<Breaker>, p: nat, rest: seq<nat>, world: nat -> Attempt,
                   j: nat)
    requires |bs| == |ps| && p < |ps| && p !in rest && Indices(ps, rest) && Indices(ps, [p] + rest) && j <= |rest|
    ensures ReplyAt(ps, model, bs, [p] + rest, world, j + 1)
         == ReplyAt(ps, model, bs[p := Turn(ps, model, bs, world, p).breaker], rest, world, j)
  {
    hide TryOne;
  }

  lemma NoTurnTaken(ps: seq<Provider>, model: string, bs: seq<Breaker>, world: nat -> Attempt)
    requires |bs| == |ps|
    ensures CallsOf(ps, model, bs, [], world) == [] && Judged(ps, model, bs, [], world, bs)
    ensures Stop(ps, model, bs, [], world) == 0 && Turns([], 0) == []
    ensures ReplyAt(ps, model, bs, [], world, 0) == ALL_FAILED
  {
  }

  lemma OneTurnTaken(ps: seq<Provider>, model: string, bs: seq<Breaker>, p: nat, world: nat -> Attempt)
    requires |bs| == |ps| && p < |ps|
    ensures var t := Turn(ps, model, bs, world, p);
            CallsOf(ps, model, bs, [p], world) == t.calls && Judged(ps, model, bs, [p], world, bs[p := t.breaker])
  {
    hide TryOne;
    assert [p][1..] == [];
  }

  lemma CallsOfCons(ps: seq<Provider>, model: string, bs: seq<Breaker>, p: nat, turns: seq<nat>, world: nat -> Attempt)
    requires |bs| == |ps| && p < |ps| && Indices(ps, turns)
    ensures Indices(ps, [p] + turns)
    ensures CallsOf(ps, model, bs, [p] + turns, world)
         == Turn(ps, model, bs, world, p).calls + CallsOf(ps, model, bs, turns, world)
  {
    hide TryOne;
    assert ([p] + turns)[1..] == turns;
  }

  lemma JudgedLater(ps: seq<Provider>, model: string, bs: seq<Breaker>, turns: seq<nat>, world: nat -> Attempt,
                    p: nat, after: seq<Breaker>)
    requires |bs| == |ps| && p < |ps| && p !in turns
    requires Judged(ps, model, bs[p := Turn(ps, model, bs, world, p).breaker], turns, world, after)
    ensures Judged(ps, model, bs, [p] + turns, world, after)
  {
  }

  lemma DistinctTail(order: seq<nat>)
    requires Distinct(order) && order != []
    ensures Distinct(order[1..]) && order[0] !in order[1..] && order == [order[0]] + order[1..]
    ensures forall i :: 0 <= i < |order| - 1 ==> order[1..][i] == order[i + 1] != order[0]
  {
  }

  function Callees(calls: seq<Call>): (ps: seq<nat>)
    ensures |ps| == |calls| && forall i :: 0 <= i < |ps| ==> ps[i] == calls[i].provider
  {
    seq(|calls|, i requires 0 <= i < |calls| => calls[i].provider)
  }

  /** Of the providers whose turn comes, exactly those are called whose breaker lets the
      request through. */
  lemma {:induction false} CalledIffAllowed(ps: seq<Provider>, model: string, bs: seq<Breaker>, turns: seq<nat>,
                                            world: nat -> Attempt, p: nat)
    requires |bs| == |ps| && Indices(ps, turns) && p < |ps|
    ensures p in Callees(CallsOf(ps, model, bs, turns, world))
       <==> p in turns && Ask(DEFAULT_LIMITS, bs[p], world(p).askedAt).allowed
  {
    if turns != [] {
      CalledIffAllowed(ps, model, bs, turns[1..], world, p);
      assert Callees(Turn(ps, model, bs, world, turns[0]).calls)
          == if Ask(DEFAULT_LIMITS, bs[turns[0]], world(turns[0]).askedAt).allowed then [turns[0]] else [];
      var first, rest := Turn(ps, model, bs, world, turns[0]).calls, CallsOf(ps, model, bs, turns[1..], world);
      assert Callees(first + rest) == Callees(first) + Callees(rest);
      assert turns == [turns[0]] + turns[1..];
    }
  }

  /** Gateways are called heaviest first, and each at most once. */
  lemma {:induction false} CallsFollowOrder(ps: seq<Provider>, model: string, bs: seq<Breaker>, turns: seq<nat>,
                                            world: nat -> Attempt)
    requires |bs| == |ps| && Indices(ps, turns) && Distinct(turns) && HeaviestFirst(ps, turns)
    ensures var called := Callees(CallsOf(ps, model, bs, turns, world));
            (forall p <- called :: p in turns) && Distinct(called) && Indices(ps, called) && HeaviestFirst(ps, called)
  {
    hide Ask, Succeed, Fail;
    if turns != [] {
      var p, rest := turns[0], turns[1..];
      DistinctTail(turns);
      CallsFollowOrder(ps, model, bs, rest, world);
      var later := Callees(CallsOf(ps, model, bs, rest, world));
      var called := Callees(CallsOf(ps, model, bs, turns, world));
      if Turn(ps, model, bs, world, p).calls == [] {
        assert called == later;
      } else {
        assert called == [p] + later;
        forall i | 0 <= i < |later| ensures later[i] != p && ps[later[i]].weight <= ps[p].weight {
          assert later[i] in rest;
        }
      }
    }
  }

  /** Failover as a caller sees it. On success, every enabled provider heavier than the one
      that answered was refused by its breaker or was called and failed; an error comes back
      only when that holds of every enabled provider. */
  lemma Failover(ps: seq<Provider>, model: string, bs: seq<Breaker>, order: seq<nat>, world: nat -> Attempt)
    requires |bs| == |ps| && PriorityOrder(ps, order)
    ensures var r := ChatOutcome(ps, model, bs, order, world);
            if r.reply.success then
              exists w: nat :: w < |ps| && ps[w].enabled && r.reply == Turn(ps, model, bs, world, w).reply
                && forall p: nat :: p < |ps| && ps[p].enabled && ps[p].weight > ps[w].weight
                     ==> !Turn(ps, model, bs, world, p).reply.success
            else
              && r.reply in {NO_PROVIDERS, ALL_DISABLED, ALL_FAILED}
              && forall p: nat :: p < |ps| && ps[p].enabled ==> !Turn(ps, model, bs, world, p).reply.success
  {
    hide TryOne;
    var r := ChatOutcome(ps, model, bs, order, world);
    if order != [] {
      FirstSuccess(ps, model, bs, order, world);
      var k := Stop(ps, model, bs, order, world);
      if k < |order| {
        var w := order[k];
        assert w in order;
        forall p: nat | p < |ps| && ps[p].enabled && ps[p].weight > ps[w].weight
          ensures !Turn(ps, model, bs, world, p).reply.success
        {
          assert p in order;
          var i :| 0 <= i < |order| && order[i] == p;
          assert i < k;
        }
      }
    }
  }

  // ---------- Sequential runs ----------

  datatype Round = Round(model: string, order: seq<nat>, world: nat -> Attempt)

  ghost predicate Playable(ps: seq<Provider>, rounds: seq<Round>) {
    forall i :: 0 <= i < |rounds| ==> PriorityOrder(ps, rounds[i].order)
  }

  /** All breakers after a run of `Chat` calls, starting from newly added providers. */
  ghost function Breakers(ps: seq<Provider>, rounds: seq<Round>): (bs: seq<Breaker>)
    requires Playable(ps, rounds)
    ensures |bs| == |ps|
    decreases |rounds|, 0
  {
    if rounds == [] then seq(|ps|, _ => FRESH) else LastOutcome(ps, rounds).breakers
  }

  ghost function LastOutcome(ps: seq<Provider>, rounds: seq<Round>): (r: Outcome)
    requires rounds != [] && Playable(ps, rounds)
    ensures |r.breakers| == |ps|
    decreases |rounds| - 1, 1
  {
    var earlier, now := rounds[..|rounds| - 1], rounds[|rounds| - 1];
    ChatOutcome(ps, now.model, Breakers(ps, earlier), now.order, now.world)
  }

  /** How often `p` was called in the whole run. */
  ghost function CallsTo(ps: seq<Provider>, rounds: seq<Round>, p: nat): nat
    requires Playable(ps, rounds)
  {
    if rounds == [] then 0
    else CallsTo(ps, rounds[..|rounds| - 1], p) + Occurrences(LastOutcome(ps, rounds).calls, p)
  }

  function Occurrences(calls: seq<Call>, p: nat): nat {
    multiset(Callees(calls))[p]
  }

  lemma OccurrencesAdd(a: seq<Call>, b: seq<Call>, p: nat)
    ensures Occurrences(a + b, p) == Occurrences(a, p) + Occurrences(b, p)
  {
    assert Callees(a + b) == Callees(a) + Callees(b);
  }

  lemma {:induction false} OccurrencesInTurns(ps: seq<Provider>, model: string, bs: seq<Breaker>, turns: seq<nat>,
                                              world: nat -> Attempt, p: nat)
    requires |bs| == |ps| && Indices(ps, turns) && Distinct(turns) && p < |ps|
    ensures Occurrences(CallsOf(ps, model, bs, turns, world), p)
            == if p in turns then |Turn(ps, model, bs, world, p).calls| else 0
  {
    if turns != [] {
      var q, rest := turns[0], turns[1..];
      assert forall i :: 0 <= i < |rest| ==> rest[i] == turns[i + 1];
      OccurrencesInTurns(ps, model, bs, rest, world, p);
      OccurrencesAdd(Turn(ps, model, bs, world, q).calls, CallsOf(ps, model, bs, rest, world), p);
      assert turns == [q] + rest;
      assert q !in rest;
    }
  }

  /** In one call a provider either has its turn or is left entirely alone. */
  lemma OneTurn(ps: seq<Provider>, model: string, bs: seq<Breaker>, order: seq<nat>, world: nat -> Attempt, p: nat)
    requires |bs| == |ps| && PriorityOrder(ps, order) && p < |ps|
    ensures var r, t := ChatOutcome(ps, model, bs, order, world), Turn(ps, model, bs, world, p);
            || (r.breakers[p] == bs[p] && Occurrences(r.calls, p) == 0)
            || (r.breakers[p] == t.breaker && Occurrences(r.calls, p) == |t.calls|)
  {
    if order != [] {
      FirstSuccess(ps, model, bs, order, world);
      var k := Stop(ps, model, bs, order, world);
      OccurrencesInTurns(ps, model, bs, Turns(order, k), world, p);
    }
  }

  /** No breaker is half-open between two calls: every probe is reported before `Chat` returns. */
  lemma {:induction false} NeverHalfOpenBetweenCalls(ps: seq<Provider>, rounds: seq<Round>, p: nat)
    requires Playable(ps, rounds) && p < |ps|
    ensures Breakers(ps, rounds)[p].state != HalfOpen
  {
    if rounds != [] {
      var earlier, now := rounds[..|rounds| - 1], rounds[|rounds| - 1];
      NeverHalfOpenBetweenCalls(ps, earlier, p);
      OneTurn(ps, now.model, Breakers(ps, earlier), now.order, now.world, p);
    }
  }

  /** Within `start..end`, provider `p` is asked and reported in clock order and always fails. */
  ghost predicate AlwaysFails(rounds: seq<Round>, p: nat, start: int, end: int) {
    && start <= end
    && (forall i :: 0 <= i < |rounds| ==>
          var a := rounds[i].world(p);
          start <= a.askedAt <= a.reportedAt <= end && forall m :: !a.reply(m).success)
    && (forall i, j :: 0 <= i < j < |rounds| ==> rounds[i].world(p).reportedAt <= rounds[j].world(p).askedAt)
  }

  /** A provider that always fails is called at most `failureThreshold` times, plus once per
      recovery period that the run lasted. */
  lemma FailingProviderIsShed(ps: seq<Provider>, rounds: seq<Round>, p: nat, start: int, end: int)
    requires Playable(ps, rounds) && p < |ps| && AlwaysFails(rounds, p, start, end)
    ensures var paidFor := CallsTo(ps, rounds, p) - DEFAULT_LIMITS.failureThreshold;
            paidFor * DEFAULT_LIMITS.recoverySeconds * NANOS_PER_SECOND <= end - start
  {
    Shedding(ps, rounds, p, start, end);
  }

  /** A failing provider's turn: refused and left alone, or called and held to have failed. */
  lemma FailingTurn(p: Provider, id: nat, model: string, b: Breaker, a: Attempt)
    requires b.state != HalfOpen && forall m :: !a.reply(m).success
    ensures var t := TryOne(p, id, model, b, a);
            || (t.calls == [] && t.breaker == b)
            || (&& |t.calls| == 1 && (b.state == Open ==> a.askedAt - b.lastFailure >= 30_000_000_000)
                && t.breaker.failures == b.failures + 1 && t.breaker.lastFailure == a.reportedAt
                && t.breaker.state == if b.state == Open || b.failures >= 4 then Open else Closed)
  {
  }

  lemma {:induction false} Shedding(ps: seq<Provider>, rounds: seq<Round>, p: nat, start: int, end: int)
    requires Playable(ps, rounds) && p < |ps| && AlwaysFails(rounds, p, start, end)
    ensures var b, n := Breakers(ps, rounds)[p], CallsTo(ps, rounds, p);
            && b.failures == n
            && (b.state == Closed ==> n < 5)
            && (b.state == Open ==> rounds != [] && (n - 5) * 30_000_000_000 <= b.lastFailure - start
                                    && b.lastFailure <= rounds[|rounds| - 1].world(p).reportedAt)
            && b.state != HalfOpen
  {
    if rounds != [] {
      var m := |rounds| - 1;
      var earlier, now := rounds[..m], rounds[m];
      assert earlier != [] ==> earlier[m - 1] == rounds[m - 1];
      Shedding(ps, earlier, p, start, end);
      hide TryOne;
      FailingTurn(ps[p], p, now.model, Breakers(ps, earlier)[p], now.world(p));
      OneTurn(ps, now.model, Breakers(ps, earlier), now.order, now.world, p);
    }
  }

  // ---------- What providers and breakers get to hear ----------

  function ReplyOf(world: nat -> Attempt, c: Call): Reply {
    world(c.provider).reply(c.model)
  }

  /** A turn in events: the request, and for a call made in it (there is one at most) whether the
      gateway answered. */
  function TurnEvents(world: nat -> Attempt, p: nat, made: seq<Call>): seq<Event> {
    [Event.Request(world(p).askedAt)]
      + if made == [] then []
        else if ReplyOf(world, made[0]).success then [Event.Success] else [Event.Failure(world(p).reportedAt)]
  }

  /** The events of one `Chat` call that concern `p`, read off the order of trial, the calls made and
      the replies of the gateways called. */
  function Heard(order: seq<nat>, calls: seq<Call>, world: nat -> Attempt, p: nat): seq<Event>
    decreases |order|
  {
    if order == [] then []
    else
      var made := if calls != [] && calls[0].provider == order[0] then calls[..1] else [];
      (if order[0] == p then TurnEvents(world, p, made) else [])
        + if made != [] && ReplyOf(world, made[0]).success then []
          else Heard(order[1..], calls[|made|..], world, p)
  }

  function Replay(b: Breaker, events: seq<Event>): Breaker
    decreases |events|
  {
    if events == [] then b
    else Replay(CircuitBreakers.Apply(DEFAULT_LIMITS, b, events[0]), events[1..])
  }

  lemma {:induction false} ReplayAppend(b: Breaker, x: seq<Event>, y: seq<Event>)
    ensures Replay(b, x + y) == Replay(Replay(b, x), y)
    decreases |x|
  {
    hide CircuitBreakers.Apply;
    if x == [] {
      assert x + y == y;
    } else {
      assert (x + y)[1..] == x[1..] + y;
      ReplayAppend(CircuitBreakers.Apply(DEFAULT_LIMITS, b, x[0]), x[1..], y);
    }
  }

  lemma {:induction false} ReplayAfter(before: seq<Event>, events: seq<Event>)
    ensures After(DEFAULT_LIMITS, before + events) == Replay(After(DEFAULT_LIMITS, before), events)
    decreases |events|
  {
    hide CircuitBreakers.Apply;
    if events == [] {
      assert before + events == before;
    } else {
      Extended(before, events[0]);
      assert before + events == before + [events[0]] + events[1..];
      ReplayAfter(before + [events[0]], events[1..]);
    }
  }

  lemma ReplayOne(b: Breaker, e: Event)
    ensures Replay(b, [e]) == CircuitBreakers.Apply(DEFAULT_LIMITS, b, e)
  {
    assert [e][1..] == [];
    assert Replay(CircuitBreakers.Apply(DEFAULT_LIMITS, b, e), []) == CircuitBreakers.Apply(DEFAULT_LIMITS, b, e);
  }

  /** One provider's turn: its breaker moves by the events of the turn, and its gateway, if called, is
      sent the model asked for, or its own. */
  lemma TurnHeard(p: Provider, id: nat, model: string, b: Breaker, world: nat -> Attempt)
    ensures var t, used := TryOne(p, id, model, b, world(id)), if model != "" then model else p.model;
            && t.breaker == Replay(b, TurnEvents(world, id, t.calls))
            && if t.calls == [] then t.reply == ALL_FAILED
               else t.calls == [Call(id, used)] && t.reply == ReplyOf(world, t.calls[0])
  {
    var t, asked := TryOne(p, id, model, b, world(id)), Event.Request(world(id).askedAt);
    ReplayOne(b, asked);
    if t.calls == [] {
      assert TurnEvents(world, id, t.calls) == [asked];
    } else {
      var report := if t.reply.success then Event.Success else Event.Failure(world(id).reportedAt);
      assert TurnEvents(world, id, t.calls) == [asked] + [report];
      ReplayAppend(b, [asked], [report]);
      ReplayOne(Replay(b, [asked]), report);
    }
  }

  /** A call to a provider that is to be tried, for the model asked for or else its own. */
  predicate FairCall(ps: seq<Provider>, model: string, order: seq<nat>, c: Call) {
    && c.provider in order && c.provider < |ps|
    && c.model == if model != "" then model else ps[c.provider].model
  }

  /** All calls are fair; all but the last failed; the reply is that of the last call if it
      succeeded, and the general failure otherwise. */
  predicate FairCalls(ps: seq<Provider>, model: string, order: seq<nat>, world: nat -> Attempt, calls: seq<Call>,
                      reply: Reply)
  {
    && (forall i :: 0 <= i < |calls| ==> FairCall(ps, model, order, calls[i]))
    && (forall i :: 0 <= i < |calls| - 1 ==> !ReplyOf(world, calls[i]).success)
    && reply == if calls != [] && ReplyOf(world, calls[|calls| - 1]).success then ReplyOf(world, calls[|calls| - 1])
                else Reply(false, "", "all providers failed")
  }

  lemma {:induction false} TryFair(ps: seq<Provider>, model: string, bs: seq<Breaker>, order: seq<nat>,
                                   world: nat -> Attempt)
    requires |bs| == |ps| && Indices(ps, order)
    ensures var r := Try(ps, model, bs, order, world); FairCalls(ps, model, order, world, r.calls, r.reply)
    decreases |order|
  {
    hide TryOne;
    if order != [] {
      hide FairCalls;
      var q, rest := order[0], order[1..];
      var t := TryOne(ps[q], q, model, bs[q], world(q));
      TurnHeard(ps[q], q, model, bs[q], world);
      if t.reply.success {
        OneFairCall(ps, model, order, world, t);
      } else {
        var later := Try(ps, model, bs[q := t.breaker], rest, world);
        TryFair(ps, model, bs[q := t.breaker], rest, world);
        FairCallsLater(ps, model, order, world, t.calls, later.calls, later.reply);
      }
    }
  }

  lemma OneFairCall(ps: seq<Provider>, model: string, order: seq<nat>, world: nat -> Attempt, t: Trial)
    requires order != [] && order[0] < |ps| && t.reply.success
    requires t.calls == [Call(order[0], if model != "" then model else ps[order[0]].model)]
    requires t.reply == ReplyOf(world, t.calls[0])
    ensures FairCalls(ps, model, order, world, t.calls, t.reply)
  {
  }

  lemma FairCallsLater(ps: seq<Provider>, model: string, order: seq<nat>, world: nat -> Attempt, first: seq<Call>,
                       later: seq<Call>, reply: Reply)
    requires order != [] && order[0] < |ps| && FairCalls(ps, model, order[1..], world, later, reply)
    requires first == []
             || (first == [Call(order[0], if model != "" then model else ps[order[0]].model)]
                 && !ReplyOf(world, first[0]).success)
    ensures FairCalls(ps, model, order, world, first + later, reply)
  {
    hide ReplyOf;
    var all := first + later;
    forall i | 0 <= i < |later| ensures FairCall(ps, model, order, later[i]) {
      assert FairCall(ps, model, order[1..], later[i]);
    }
    if first == [] {
      assert all == later;
    } else {
      assert forall i :: 0 < i < |all| ==> all[i] == later[i - 1];
    }
  }

  lemma {:induction false} TryHeard(ps: seq<Provider>, model: string, bs: seq<Breaker>, order: seq<nat>,
                                    world: nat -> Attempt, p: nat)
    requires |bs| == |ps| && Indices(ps, order) && Distinct(order) && p < |ps|
    ensures var r := Try(ps, model, bs, order, world);
            r.breakers[p] == Replay(bs[p], Heard(order, r.calls, world, p))
    decreases |order|
  {
    hide TryOne, Replay, Distinct, Heard, TurnEvents, ReplyOf, FairCalls;
    NothingHeard(bs[p]);
    if order == [] {
      NobodyTried(world, p);
    } else {
      var q, rest := order[0], order[1..];
      var t := TryOne(ps[q], q, model, bs[q], world(q));
      TurnHeard(ps[q], q, model, bs[q], world);
      DistinctTail(order);
      if t.reply.success {
        HeardStep(order, t.calls, [], world, p);
        assert t.calls + [] == t.calls;
        assert TurnEvents(world, p, t.calls) + [] == TurnEvents(world, p, t.calls);
      } else {
        var bs' := bs[q := t.breaker];
        var later := Try(ps, model, bs', rest, world);
        TryHeard(ps, model, bs', rest, world, p);
        TryFair(ps, model, bs', rest, world);
        FirstIsTried(ps, model, rest, world, later);
        HeardStep(order, t.calls, later.calls, world, p);
        ReplayAppend(bs[p], if q == p then TurnEvents(world, p, t.calls) else [], Heard(rest, later.calls, world, p));
      }
    }
  }

  lemma NobodyTried(world: nat -> Attempt, p: nat)
    ensures Heard([], [], world, p) == []
  {
  }

  lemma FirstIsTried(ps: seq<Provider>, model: string, order: seq<nat>, world: nat -> Attempt, r: Outcome)
    requires FairCalls(ps, model, order, world, r.calls, r.reply)
    ensures r.calls != [] ==> r.calls[0].provider in order
  {
    if r.calls != [] { assert FairCall(ps, model, order, r.calls[0]); }
  }

  lemma NothingHeard(b: Breaker)
    ensures Replay(b, []) == b
  {
  }

  lemma HeardStep(order: seq<nat>, made: seq<Call>, later: seq<Call>, world: nat -> Attempt, p: nat)
    requires order != [] && (later != [] ==> later[0].provider != order[0])
    requires made == [] || (|made| == 1 && made[0].provider == order[0])
    ensures Heard(order, made + later, world, p)
         == (if order[0] == p then TurnEvents(world, p, made) else [])
            + if made != [] && ReplyOf(world, made[0]).success then [] else Heard(order[1..], later, world, p)
  {
    hide TurnEvents, ReplyOf;
    var all := made + later;
    if made == [] {
      assert all == later && all[0..] == later;
    } else {
      assert all[0] == made[0] && all[1..] == later && all[..1] == made;
    }
  }

  /** Each `Chat` call, whatever its order of trial, in terms of what can be seen: the calls are fair,
      every breaker moves by exactly the events its provider gave rise to, and there are errors of
      their own for a router without providers and one whose providers are all disabled. */
  lemma ChatHeard(ps: seq<Provider>, model: string, bs: seq<Breaker>, order: seq<nat>, world: nat -> Attempt, p: nat)
    requires |bs| == |ps| && PriorityOrder(ps, order) && p < |ps|
    ensures var r := ChatOutcome(ps, model, bs, order, world);
            && r.breakers[p] == Replay(bs[p], Heard(order, r.calls, world, p))
            && (order != [] ==> FairCalls(ps, model, order, world, r.calls, r.reply))
            && (order == [] ==> r.calls == [] && r.reply == Reply(false, "", "all providers disabled"))
  {
    if order == [] {
      NobodyTried(world, p);
    } else {
      TryHeard(ps, model, bs, order, world, p);
      TryFair(ps, model, bs, order, world);
    }
  }

  lemma NoProvidersConfigured(model: string, world: nat -> Attempt)
    ensures ChatOutcome([], model, [], [], world) == Outcome([], [], Reply(false, "", "no providers configured"))
  {
  }

  /** All that the breaker of `p` hears in a run, oldest first. */
  ghost function HeardInRun(ps: seq<Provider>, rounds: seq<Round>, p: nat): seq<Event>
    requires Playable(ps, rounds)
  {
    if rounds == [] then []
    else
      var now := rounds[|rounds| - 1];
      HeardInRun(ps, rounds[..|rounds| - 1], p) + Heard(now.order, LastOutcome(ps, rounds).calls, now.world, p)
  }

  /** After any run, a provider's breaker is what those events make of a new one: a request for every
      turn, and for every call a success or a failure as its gateway answered. */
  lemma {:induction false} BreakersFollowReplies(ps: seq<Provider>, rounds: seq<Round>, p: nat)
    requires Playable(ps, rounds) && p < |ps|
    ensures Breakers(ps, rounds)[p] == After(Limits(5, 30, 1), HeardInRun(ps, rounds, p))
  {
    if rounds != [] {
      hide ChatOutcome, Heard;
      var earlier, now := rounds[..|rounds| - 1], rounds[|rounds| - 1];
      BreakersFollowReplies(ps, earlier, p);
      ChatHeard(ps, now.model, Breakers(ps, earlier), now.order, now.world, p);
      ReplayAfter(HeardInRun(ps, earlier, p), Heard(now.order, LastOutcome(ps, rounds).calls, now.world, p));
    }
  }

  lemma {:induction false} NoFailureHeard(order: seq<nat>, calls: seq<Call>, world: nat -> Attempt, p: nat)
    requires forall m :: world(p).reply(m).success
    ensures forall e <- Heard(order, calls, world, p) :: !e.Failure?
    decreases |order|
  {
    if order != [] {
      NoFailureHeard(order[1..], calls, world, p);
      if calls != [] { NoFailureHeard(order[1..], calls[1..], world, p); }
    }
  }

  lemma {:induction false} ReplayWithoutFailure(events: seq<Event>)
    requires forall e <- events :: !e.Failure?
    ensures Replay(FRESH, events) == FRESH
  {
    if events != [] { ReplayWithoutFailure(events[1..]); }
  }

  /** A provider that always succeeds is never refused by its breaker. */
  lemma {:induction false} GoodProviderIsNeverRefused(ps: seq<Provider>, rounds: seq<Round>, p: nat, at: int)
    requires Playable(ps, rounds) && p < |ps|
    requires forall i, m :: 0 <= i < |rounds| ==> rounds[i].world(p).reply(m).success
    ensures Breakers(ps, rounds)[p] == FRESH && Ask(DEFAULT_LIMITS, Breakers(ps, rounds)[p], at).allowed
  {
    if rounds != [] {
      hide ChatOutcome, Heard, Replay;
      var earlier, now := rounds[..|rounds| - 1], rounds[|rounds| - 1];
      GoodProviderIsNeverRefused(ps, earlier, p, at);
      ChatHeard(ps, now.model, Breakers(ps, earlier), now.order, now.world, p);
      NoFailureHeard(now.order, LastOutcome(ps, rounds).calls, now.world, p);
      ReplayWithoutFailure(Heard(now.order, LastOutcome(ps, rounds).calls, now.world, p));
    }
  }
}
