/** The response cache of src/http/ai_gateway.cpp: entries age out, and the oldest one makes
    room when the cache is full. Clock readings are parameters, in nanoseconds.

    Which of several equally old entries is evicted depends on hash order, so one `Set` is
    specified by a relation between the cache before and after. */
module ResponseCaching {
  import opened Wrappers

  datatype Entry = Entry(value: string, createdAt: int)

  type Cache = map<string, Entry>

  datatype Limits = Limits(maxEntries: nat, ttlSeconds: int)

  predicate Expired(l: Limits, e: Entry, now: int) {
    Elapsed(e.createdAt, now) >= l.ttlSeconds
  }

  /** `kept` is what is left of `c` after the oldest entries made room for one more. */
  ghost predicate Evicts(l: Limits, c: Cache, kept: Cache) {
    && kept.Keys <= c.Keys && (forall k <- kept :: kept[k] == c[k])
    && |kept| == (if |c| < l.maxEntries then |c| else l.maxEntries - 1)
    && forall e, k :: e in c && e !in kept && k in kept ==> c[e].createdAt <= c[k].createdAt
  }

  ghost predicate Sets(l: Limits, c: Cache, key: string, value: string, now: int, after: Cache) {
    exists kept :: Evicts(l, c, kept) && after == kept[key := Entry(value, now)]
  }

  function Got(l: Limits, c: Cache, key: string, now: int): Option<string> {
    if key in c && !Expired(l, c[key], now) then Some(c[key].value) else None
  }

  function AfterGet(l: Limits, c: Cache, key: string, now: int): Cache {
    if key in c && Expired(l, c[key], now) then c - {key} else c
  }

  class AiResponseCache {
    const limits: Limits
    var cache: Cache

    constructor (maxEntries: nat, ttlSeconds: int)
      ensures limits == Limits(maxEntries, ttlSeconds) && cache == map[]
    {
      limits, cache := Limits(maxEntries, ttlSeconds), map[];
    }

    method Get(key: string, now: int) returns (hit: Option<string>)
      modifies this
      ensures hit == Got(limits, old(cache), key, now)
      ensures cache == AfterGet(limits, old(cache), key, now)
    {
      if key !in cache {
        return None;
      }
      if Expired(limits, cache[key], now) {
        cache := cache - {key};
        return None;
      }
      return Some(cache[key].value);
    }

    /** With no room for even one entry the source would look for the oldest of none. */
    method Set(key: string, value: string, now: int)
      requires limits.maxEntries >= 1
      modifies this
      ensures Sets(limits, old(cache), key, value, now, cache)
    {
      while |cache| >= limits.maxEntries
        invariant cache.Keys <= old(cache).Keys && forall k <- cache :: cache[k] == old(cache)[k]
        invariant |cache| >= (if |old(cache)| < limits.maxEntries then |old(cache)| else limits.maxEntries - 1)
        invariant |old(cache)| < limits.maxEntries ==> cache == old(cache)
        invariant forall e, k :: e in old(cache) && e !in cache && k in cache
                    ==> old(cache)[e].createdAt <= old(cache)[k].createdAt
        decreases |cache|
      {
        var oldest := Oldest();
        RemoveOne(cache, oldest);
        cache := cache - {oldest};
      }
      ghost var kept := cache;
      assert Evicts(limits, old(cache), kept);
      cache := cache[key := Entry(value, now)];
    }

    method Oldest() returns (oldest: string)
      requires |cache| >= 1
      ensures oldest in cache && forall k <- cache :: cache[oldest].createdAt <= cache[k].createdAt
    {
      var left := cache.Keys;
      assert left != {};
      oldest :| oldest in left;
      while left != {}
        invariant oldest in cache && left <= cache.Keys
        invariant forall k <- cache :: k in left || cache[oldest].createdAt <= cache[k].createdAt
        decreases |left|
      {
        var k :| k in left;
        if cache[k].createdAt < cache[oldest].createdAt {
          oldest := k;
        }
        left := left - {k};
      }
    }

    method Clear()
      modifies this
      ensures cache == map[]
    {
      cache := map[];
    }
  }

  lemma RemoveOne(c: Cache, k: string)
    requires k in c
    ensures |c - {k}| == |c| - 1
  {
    assert (c - {k}).Keys == c.Keys - {k};
  }

  // ---------- Runs ----------

  datatype Op = Get(key: string, at: int, hit: Option<string>) | Set(key: string, value: string,
                    at: int) | Clear(at: int)

  ghost predicate Step(l: Limits, c: Cache, op: Op, after: Cache) {
    match op
    case Get(key, now, hit) => hit == Got(l, c, key, now) && after == AfterGet(l, c, key, now)
    case Set(key, value, now) => Sets(l, c, key, value, now, after)
    case Clear(_) => after == map[]
  }

  /** `states` are the caches a run of `ops` goes through, from an empty one. */
  ghost predicate Runs(l: Limits, ops: seq<Op>, states: seq<Cache>) {
    && |states| == |ops| + 1 && states[0] == map[]
    && forall i :: 0 <= i < |ops| ==> Step(l, states[i], ops[i], states[i + 1])
  }

  ghost predicate Ordered(ops: seq<Op>) {
    forall i, j :: 0 <= i < j < |ops| ==> ops[i].at <= ops[j].at
  }

  ghost predicate StrictlyOrdered(ops: seq<Op>) {
    forall i, j :: 0 <= i < j < |ops| ==> ops[i].at < ops[j].at
  }

  /** What a never-forgetting cache would hold for `key`: its latest `Set` since the latest
      `Clear`. */
  function LatestSet(ops: seq<Op>, key: string): Option<Entry> {
    if ops == [] then None
    else
      var op := ops[|ops| - 1];
      if op.Clear? then None
      else if op.Set? && op.key == key then Some(Entry(op.value, op.at))
      else LatestSet(ops[..|ops| - 1], key)
  }

  /** `Set` calls of any key after the latest `Set` of `key`. */
  function SetsSince(ops: seq<Op>, key: string): nat {
    if ops == [] then 0
    else
      var op := ops[|ops| - 1];
      if op.Set? && op.key == key then 0
      else SetsSince(ops[..|ops| - 1], key) + if op.Set? then 1 else 0
  }

  function Now(ops: seq<Op>): int
    requires ops != []
  {
    ops[|ops| - 1].at
  }

  /** What the cache holds is exactly right, and what it dropped early was dropped for being old:
      a missing key that is not expired is no newer than anything that survives. */
  ghost predicate Faithful(l: Limits, ops: seq<Op>, c: Cache) {
    && |c| <= l.maxEntries
    && (forall k <- c :: LatestSet(ops, k) == Some(c[k]))
    && forall k, s :: k !in c && LatestSet(ops, k).Some? && s in c && !Expired(l, LatestSet(ops, k).value, Now(ops))
         ==> LatestSet(ops, k).value.createdAt <= c[s].createdAt
  }

  lemma LaterStillExpired(l: Limits, e: Entry, t0: int, t1: int)
    requires Expired(l, e, t0) && t0 <= t1
    ensures Expired(l, e, t1)
  {
    var a, b := t0 - e.createdAt, t1 - e.createdAt;
    if a >= 0 {
      assert b / NANOS_PER_SECOND >= a / NANOS_PER_SECOND;
    } else if b >= 0 {
      assert b / NANOS_PER_SECOND >= 0 && (-a) / NANOS_PER_SECOND >= 0;
    } else {
      assert (-b) / NANOS_PER_SECOND <= (-a) / NANOS_PER_SECOND;
    }
  }

  lemma {:induction false} LatestSetInRun(ops: seq<Op>, key: string)
    requires Ordered(ops) && LatestSet(ops, key).Some?
    ensures ops != [] && LatestSet(ops, key).value.createdAt <= Now(ops)
  {
    var op := ops[|ops| - 1];
    if !(op.Set? && op.key == key) { LatestSetInRun(ops[..|ops| - 1], key); }
  }

  /** A key's last set value does not change, and does not get younger, with an operation that
      does not set it. */
  lemma StillLatest(l: Limits, ops: seq<Op>, op: Op, k: string)
    requires Ordered(ops + [op]) && !op.Clear? && !(op.Set? && op.key == k)
    ensures LatestSet(ops + [op], k) == LatestSet(ops, k)
    ensures LatestSet(ops, k).Some? ==>
              && ops != [] && LatestSet(ops, k).value.createdAt <= Now(ops) <= op.at
              && (Expired(l, LatestSet(ops, k).value, Now(ops)) ==> Expired(l, LatestSet(ops, k).value, op.at))
  {
    hide Expired;
    var all := ops + [op];
    assert all[..|all| - 1] == ops && all[|all| - 1] == op;
    if LatestSet(ops, k).Some? {
      assert Ordered(ops) by { assert forall i :: 0 <= i < |ops| ==> ops[i] == all[i]; }
      LatestSetInRun(ops, k);
      assert all[|ops| - 1] == ops[|ops| - 1];
      if Expired(l, LatestSet(ops, k).value, Now(ops)) {
        LaterStillExpired(l, LatestSet(ops, k).value, Now(ops), op.at);
      }
    }
  }

  lemma JustSet(ops: seq<Op>, op: Op)
    requires op.Set?
    ensures LatestSet(ops + [op], op.key) == Some(Entry(op.value, op.at))
  {
  }

  lemma SetKeepsFaithful(l: Limits, ops: seq<Op>, c: Cache, op: Op, after: Cache)
    requires Ordered(ops + [op]) && l.maxEntries >= 1 && op.Set? && Sets(l, c, op.key, op.value, op.at, after)
    requires if ops == [] then c == map[] else Faithful(l, ops, c)
    ensures Faithful(l, ops + [op], after)
  {
    hide Expired, LatestSet, Evicts;
    var all := ops + [op];
    JustSet(ops, op);
    var kept :| Evicts(l, c, kept) && after == kept[op.key := Entry(op.value, op.at)];
    KeptFrom(l, c, kept);
    KeptSize(l, c, kept, op.key, Entry(op.value, op.at));
    forall k | k in after ensures LatestSet(all, k) == Some(after[k]) {
      if k != op.key { StillLatest(l, ops, op, k); }
    }
    forall k, s | k !in after && LatestSet(all, k).Some? && s in after && !Expired(l, LatestSet(all, k).value, Now(all))
      ensures LatestSet(all, k).value.createdAt <= after[s].createdAt
    {
      StillLatest(l, ops, op, k);
      if k in c && s != op.key { EvictedIsOlder(l, c, kept, k, s); }
    }
  }

  lemma KeptFrom(l: Limits, c: Cache, kept: Cache)
    requires Evicts(l, c, kept)
    ensures forall k <- kept :: k in c && kept[k] == c[k]
  {
  }

  lemma EvictedIsOlder(l: Limits, c: Cache, kept: Cache, e: string, k: string)
    requires Evicts(l, c, kept) && e in c && e !in kept && k in kept
    ensures k in c && c[e].createdAt <= kept[k].createdAt
  {
  }

  lemma KeptSize(l: Limits, c: Cache, kept: Cache, key: string, e: Entry)
    requires Evicts(l, c, kept) && l.maxEntries >= 1
    ensures |kept[key := e]| <= l.maxEntries
  {
    assert kept[key := e].Keys == kept.Keys + {key};
  }

  lemma GetKeepsFaithful(l: Limits, ops: seq<Op>, c: Cache, op: Op, after: Cache)
    requires Ordered(ops + [op]) && op.Get? && after == AfterGet(l, c, op.key, op.at)
    requires if ops == [] then c == map[] else Faithful(l, ops, c)
    ensures Faithful(l, ops + [op], after)
  {
    hide Expired, LatestSet;
    var all := ops + [op];
    if op.key in c { RemoveOne(c, op.key); }
    forall k ensures LatestSet(all, k) == LatestSet(ops, k) {
      StillLatest(l, ops, op, k);
    }
    forall k, s | k !in after && LatestSet(all, k).Some? && s in after && !Expired(l, LatestSet(all, k).value, Now(all))
      ensures LatestSet(all, k).value.createdAt <= after[s].createdAt
    {
      StillLatest(l, ops, op, k);
    }
  }

  /** In every run, the cache stays within its size, holds for each key the latest value set,
      and has lost no unexpired key that is newer than a surviving one. */
  lemma {:induction false} CacheIsFaithful(l: Limits, ops: seq<Op>, states: seq<Cache>)
    requires l.maxEntries >= 1 && Runs(l, ops, states) && Ordered(ops) && ops != []
    ensures Faithful(l, ops, states[|ops|])
    decreases |ops|
  {
    var n := |ops| - 1;
    var earlier, op := ops[..n], ops[n];
    assert ops == earlier + [op];
    if n > 0 { CacheIsFaithful(l, earlier, states[..n + 1]); }
    assert Step(l, states[n], op, states[n + 1]);
    match op
    case Set(_, _, _) => SetKeepsFaithful(l, earlier, states[n], op, states[n + 1]);
    case Get(_, _, _) => GetKeepsFaithful(l, earlier, states[n], op, states[n + 1]);
    case Clear(_) =>
  }

  /** A hit returns the latest value set for that key, and one that is not expired. */
  lemma HitIsLatest(l: Limits, ops: seq<Op>, states: seq<Cache>, i: nat)
    requires l.maxEntries >= 1 && Runs(l, ops, states) && Ordered(ops)
    requires i < |ops| && ops[i].Get? && ops[i].hit.Some?
    ensures LatestSet(ops[..i], ops[i].key).Some?
    ensures var e := LatestSet(ops[..i], ops[i].key).value;
            e.value == ops[i].hit.value && Elapsed(e.createdAt, ops[i].at) < l.ttlSeconds
  {
    if i > 0 { CacheIsFaithful(l, ops[..i], states[..i + 1]); }
    assert Step(l, states[i], ops[i], states[i + 1]);
  }

  // ---------- Recently set keys ----------

  /** The keys of `c` set later than `k`. */
  function Newer(c: Cache, k: string): set<string>
    requires k in c
  {
    set s | s in c && c[s].createdAt > c[k].createdAt
  }

  /** Under a strictly increasing clock: entries have distinct ages, at most one newer entry per
      `Set` since, and a key lost before its time was followed by `maxEntries` `Set`s. */
  ghost predicate Ranked(l: Limits, ops: seq<Op>, c: Cache) {
    && (forall k, s :: k in c && s in c && k != s ==> c[k].createdAt != c[s].createdAt)
    && (forall k :: k in c ==> |Newer(c, k)| <= SetsSince(ops, k))
    && (forall k :: k !in c && LatestSet(ops, k).Some? && !Expired(l, LatestSet(ops, k).value, Now(ops))
          ==> SetsSince(ops, k) >= l.maxEntries)
  }

  lemma StillSince(ops: seq<Op>, op: Op, k: string)
    requires !(op.Set? && op.key == k)
    ensures SetsSince(ops + [op], k) == SetsSince(ops, k) + if op.Set? then 1 else 0
  {
    assert (ops + [op])[..|ops + [op]| - 1] == ops;
  }

  /** A key evicted from a full cache of entries of distinct ages is older than all the others. */
  lemma EvictedIsOldest(l: Limits, c: Cache, kept: Cache, k: string)
    requires l.maxEntries >= 1 && |c| <= l.maxEntries && Evicts(l, c, kept) && k in c && k !in kept
    requires forall k, s :: k in c && s in c && k != s ==> c[k].createdAt != c[s].createdAt
    ensures |Newer(c, k)| >= l.maxEntries - 1
  {
    RemoveOne(c, k);
    Smaller(kept.Keys, (c - {k}).Keys);
    assert |kept.Keys| == |kept| == l.maxEntries - 1;
    Smaller(kept.Keys, Newer(c, k));
  }

  lemma SetKeepsRanked(l: Limits, ops: seq<Op>, c: Cache, op: Op, after: Cache)
    requires Ordered(ops + [op]) && (forall i :: 0 <= i < |ops| ==> ops[i].at < op.at)
    requires l.maxEntries >= 1 && op.Set? && Sets(l, c, op.key, op.value, op.at, after)
    requires if ops == [] then c == map[] else Faithful(l, ops, c) && Ranked(l, ops, c)
    ensures Ranked(l, ops + [op], after)
  {
    hide Expired, LatestSet, SetsSince, Newer, Evicts;
    var all := ops + [op];
    var kept :| Evicts(l, c, kept) && after == kept[op.key := Entry(op.value, op.at)];
    KeptFrom(l, c, kept);
    forall k | k in c ensures c[k].createdAt < op.at {
      LatestSetBefore(ops, op, k);
    }
    forall k | k in after ensures |Newer(after, k)| <= SetsSince(all, k) {
      NewerAfterSet(c, kept, op.key, Entry(op.value, op.at), k);
      if k != op.key { StillSince(ops, op, k); }
    }
    forall k | k !in after && LatestSet(all, k).Some? && !Expired(l, LatestSet(all, k).value, Now(all))
      ensures SetsSince(all, k) >= l.maxEntries
    {
      StillLatest(l, ops, op, k);
      StillSince(ops, op, k);
      if k in c { EvictedIsOldest(l, c, kept, k); }
    }
  }

  lemma NewerAfterSet(c: Cache, kept: Cache, key: string, e: Entry, k: string)
    requires (forall s <- kept :: s in c && kept[s] == c[s]) && (forall s <- c :: c[s].createdAt < e.createdAt)
    requires k == key || k in kept
    ensures var after := kept[key := e];
            |Newer(after, k)| <= if k == key then 0 else |Newer(c, k)| + 1
  {
    var after := kept[key := e];
    if k == key {
      assert Newer(after, k) == {};
    } else {
      Smaller(Newer(after, k), Newer(c, k) + {key});
    }
  }

  lemma LatestSetBefore(ops: seq<Op>, op: Op, k: string)
    requires Ordered(ops + [op]) && (forall i :: 0 <= i < |ops| ==> ops[i].at < op.at)
    requires LatestSet(ops, k).Some?
    ensures LatestSet(ops, k).value.createdAt < op.at
  {
    assert Ordered(ops) by { assert forall i :: 0 <= i < |ops| ==> ops[i] == (ops + [op])[i]; }
    LatestSetInRun(ops, k);
  }

  lemma GetKeepsRanked(l: Limits, ops: seq<Op>, c: Cache, op: Op, after: Cache)
    requires Ordered(ops + [op]) && op.Get? && after == AfterGet(l, c, op.key, op.at)
    requires if ops == [] then c == map[] else Faithful(l, ops, c) && Ranked(l, ops, c)
    ensures Ranked(l, ops + [op], after)
  {
    hide Expired, LatestSet, SetsSince;
    var all := ops + [op];
    forall k | k in after ensures |Newer(after, k)| <= SetsSince(all, k) {
      StillSince(ops, op, k);
      Smaller(Newer(after, k), Newer(c, k));
    }
    forall k | k !in after && LatestSet(all, k).Some? && !Expired(l, LatestSet(all, k).value, Now(all))
      ensures SetsSince(all, k) >= l.maxEntries
    {
      StillLatest(l, ops, op, k);
      StillSince(ops, op, k);
    }
  }

  lemma {:induction false} CacheIsRanked(l: Limits, ops: seq<Op>, states: seq<Cache>)
    requires l.maxEntries >= 1 && Runs(l, ops, states) && StrictlyOrdered(ops) && ops != []
    ensures Ranked(l, ops, states[|ops|])
    decreases |ops|
  {
    hide Expired, LatestSet, SetsSince;
    var n := |ops| - 1;
    var earlier, op := ops[..n], ops[n];
    assert ops == earlier + [op];
    if n > 0 {
      CacheIsRanked(l, earlier, states[..n + 1]);
      CacheIsFaithful(l, earlier, states[..n + 1]);
    }
    assert Step(l, states[n], op, states[n + 1]);
    match op
    case Set(_, _, _) => SetKeepsRanked(l, earlier, states[n], op, states[n + 1]);
    case Get(_, _, _) => GetKeepsRanked(l, earlier, states[n], op, states[n + 1]);
    case Clear(_) => ClearedIsRanked(l, ops);
  }

  lemma ClearedIsRanked(l: Limits, ops: seq<Op>)
    requires ops != [] && ops[|ops| - 1].Clear?
    ensures Ranked(l, ops, map[])
  {
  }

  /** A key that was set, has not expired, and has been followed by fewer than `maxEntries`
      `Set` calls is always a hit, with the value last set. */
  lemma RecentSetHits(l: Limits, ops: seq<Op>, states: seq<Cache>, i: nat)
    requires l.maxEntries >= 1 && Runs(l, ops, states) && StrictlyOrdered(ops) && i < |ops| && ops[i].Get?
    requires LatestSet(ops[..i], ops[i].key).Some? && !Expired(l, LatestSet(ops[..i], ops[i].key).value, ops[i].at)
    requires SetsSince(ops[..i], ops[i].key) < l.maxEntries
    ensures ops[i].hit == Some(LatestSet(ops[..i], ops[i].key).value.value)
  {
    var key, earlier := ops[i].key, ops[..i];
    assert earlier != [];
    hide Expired, LatestSet, SetsSince;
    CacheIsFaithful(l, earlier, states[..i + 1]);
    CacheIsRanked(l, earlier, states[..i + 1]);
    assert Step(l, states[i], ops[i], states[i + 1]);
    assert Ordered(earlier + [ops[i]]);
    StillLatest(l, earlier, ops[i], key);
  }

  /** Looking a key up erases its entry if that has reached its time to live, and nothing else. */
  lemma ExpiredEntryGoes(l: Limits, ops: seq<Op>, states: seq<Cache>, i: nat)
    requires Runs(l, ops, states) && i < |ops| && ops[i].Get?
    ensures var key, before, after := ops[i].key, states[i], states[i + 1];
            && (key in after <==> key in before && Elapsed(before[key].createdAt, ops[i].at) < l.ttlSeconds)
            && (forall k :: k != key ==> (k in after <==> k in before))
            && (forall k <- after :: after[k] == before[k])
  {
    assert Step(l, states[i], ops[i], states[i + 1]);
  }
}
