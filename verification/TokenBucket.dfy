/** Token-bucket admission control, after src/http/rate_limiter.cpp.

    Clock readings are parameters, in seconds; tokens are reals. `RateLimiter` is the
    stateful object; `Step` is its value-level specification, about which the window
    bound and the optimality of the greedy decision are proved. */
module TokenBucket {

  datatype Config = Config(rate: real, burst: real)

  datatype Bucket = Bucket(tokens: real, lastRefill: real)

  datatype Op = Allow(at: real) | Reset(at: real)

  datatype Result = Result(admitted: bool, bucket: Bucket)

  /** Tokens flowing in over a time interval. */
  function Inflow(c: Config, from: real, to: real): real {
    (to - from) * c.rate
  }

  lemma InflowAdds(c: Config, t0: real, t1: real, t2: real)
    ensures Inflow(c, t0, t1) + Inflow(c, t1, t2) == Inflow(c, t0, t2)
    ensures c.rate >= 0.0 && t0 <= t1 ==> Inflow(c, t0, t1) >= 0.0
  {
  }

  function Min(x: real, y: real): real {
    if y < x then y else x
  }

  function Refilled(c: Config, b: Bucket, now: real): real {
    Min(c.burst, b.tokens + Inflow(c, b.lastRefill, now))
  }

  function Step(c: Config, b: Bucket, op: Op): Result {
    match op
    case Reset(now) => Result(false, Bucket(c.burst, now))
    case Allow(now) =>
      var t := Refilled(c, b, now);
      if t >= 1.0 then Result(true, Bucket(t - 1.0, now)) else Result(false, Bucket(t, now))
  }

  class RateLimiter {
    const config: Config
    var tokens: real
    var lastRefill: real

    function View(): Bucket
      reads this
    {
      Bucket(tokens, lastRefill)
    }

    constructor (ratePerSecond: real, burst: int, now: real)
      ensures config == Config(ratePerSecond, burst as real)
      ensures View() == Full(config, now)
    {
      config := Config(ratePerSecond, burst as real);
      tokens := burst as real;
      lastRefill := now;
    }

    method Allow(now: real) returns (admitted: bool)
      modifies this
      ensures Result(admitted, View()) == Step(config, old(View()), Op.Allow(now))
    {
      var elapsed := now - lastRefill;
      assert elapsed * config.rate == Inflow(config, lastRefill, now);
      lastRefill := now;
      tokens := Min(config.burst, tokens + elapsed * config.rate);
      if tokens >= 1.0 {
        tokens := tokens - 1.0;
        return true;
      }
      return false;
    }

    method Reset(now: real)
      modifies this
      ensures View() == Full(config, now) == Step(config, old(View()), Op.Reset(now)).bucket
    {
      tokens := config.burst;
      lastRefill := now;
    }
  }

  // ---------- Runs ----------

  function Full(c: Config, now: real): Bucket {
    Bucket(c.burst, now)
  }

  /** The bucket after the first `n` operations of a run. */
  function State(c: Config, b: Bucket, ops: seq<Op>, n: nat): Bucket
    requires n <= |ops|
  {
    if n == 0 then b else Step(c, State(c, b, ops, n - 1), ops[n - 1]).bucket
  }

  predicate Admits(c: Config, b: Bucket, ops: seq<Op>, k: nat)
    requires k < |ops|
  {
    Step(c, State(c, b, ops, k), ops[k]).admitted
  }

  /** How many of the operations `lo..hi` were admitted. */
  function Admitted(c: Config, b: Bucket, ops: seq<Op>, lo: nat, hi: nat): nat
    requires hi <= |ops|
  {
    if hi <= lo then 0
    else Admitted(c, b, ops, lo, hi - 1) + if Admits(c, b, ops, hi - 1) then 1 else 0
  }

  /** Time never runs backwards, and refilling never removes tokens. */
  ghost predicate Plausible(c: Config, b: Bucket, ops: seq<Op>) {
    && c.rate >= 0.0 && c.burst >= 0.0
    && 0.0 <= b.tokens <= c.burst
    && (forall i :: 0 <= i < |ops| ==> b.lastRefill <= ops[i].at)
    && (forall i, j :: 0 <= i < j < |ops| ==> ops[i].at <= ops[j].at)
  }

  lemma {:induction false} TokensInRange(c: Config, b: Bucket, ops: seq<Op>, n: nat)
    requires Plausible(c, b, ops) && n <= |ops|
    ensures 0.0 <= State(c, b, ops, n).tokens <= c.burst
    ensures State(c, b, ops, n).lastRefill == if n == 0 then b.lastRefill else ops[n - 1].at
  {
    if n > 0 {
      TokensInRange(c, b, ops, n - 1);
      var s, now := State(c, b, ops, n - 1), ops[n - 1].at;
      InflowAdds(c, s.lastRefill, now, now);
    }
  }

  /** Tokens left plus requests admitted never exceed a full bucket plus what flowed in. */
  lemma {:induction false} Budget(c: Config, b: Bucket, ops: seq<Op>, i: nat, j: nat)
    requires Plausible(c, b, ops) && i <= j < |ops|
    requires forall k :: i <= k <= j ==> ops[k].Allow?
    ensures Admitted(c, b, ops, i, j + 1) as real + State(c, b, ops, j + 1).tokens
            <= c.burst + Inflow(c, ops[i].at, ops[j].at)
  {
    var s, now := State(c, b, ops, j), ops[j].at;
    var spent := if Admits(c, b, ops, j) then 1.0 else 0.0;
    assert State(c, b, ops, j + 1).tokens + spent == Refilled(c, s, now);
    assert Admitted(c, b, ops, i, j + 1) as real == Admitted(c, b, ops, i, j) as real + spent;
    if i < j {
      Budget(c, b, ops, i, j - 1);
      TokensInRange(c, b, ops, j);
      InflowAdds(c, ops[i].at, s.lastRefill, now);
    } else {
      InflowAdds(c, now, now, now);
    }
  }

  /** Between any two calls with no reset between them, at most `burst + rate * elapsed`
      requests get through. */
  lemma WindowBound(c: Config, b: Bucket, ops: seq<Op>, i: nat, j: nat)
    requires Plausible(c, b, ops) && i <= j < |ops|
    requires forall k :: i <= k <= j ==> ops[k].Allow?
    ensures Admitted(c, b, ops, i, j + 1) as real <= c.burst + Inflow(c, ops[i].at, ops[j].at)
  {
    Budget(c, b, ops, i, j);
    TokensInRange(c, b, ops, j + 1);
  }

  // ---------- Optimality ----------

  function Count(chosen: seq<bool>, lo: nat, hi: nat): nat
    requires hi <= |chosen|
  {
    if hi <= lo then 0 else Count(chosen, lo, hi - 1) + if chosen[hi - 1] then 1 else 0
  }

  /** `chosen` never exceeds the advertised rate in any window. */
  ghost predicate Conforms(c: Config, ops: seq<Op>, chosen: seq<bool>) {
    && |chosen| == |ops|
    && forall i, j :: 0 <= i <= j < |ops| ==>
         Count(chosen, i, j + 1) as real <= c.burst + Inflow(c, ops[i].at, ops[j].at)
  }

  /** At every call the bucket was last full at some earlier call `s`, and holds exactly what
      flowed in since, less what was admitted since. */
  lemma {:induction false} FullSince(c: Config, now: real, ops: seq<Op>, k: nat) returns (s: nat)
    requires Plausible(c, Full(c, now), ops) && k < |ops|
    requires forall i :: 0 <= i < |ops| ==> ops[i].Allow?
    ensures s <= k
    ensures Refilled(c, State(c, Full(c, now), ops, k), ops[k].at)
         == c.burst + Inflow(c, ops[s].at, ops[k].at) - Admitted(c, Full(c, now), ops, s, k) as real
  {
    var b := Full(c, now);
    var before := State(c, b, ops, k);
    TokensInRange(c, b, ops, k);
    if before.tokens + Inflow(c, before.lastRefill, ops[k].at) >= c.burst {
      s := k;
    } else if k == 0 {
      InflowAdds(c, now, ops[0].at, ops[0].at);
      assert false;
    } else {
      s := FullSince(c, now, ops, k - 1);
      InflowAdds(c, ops[s].at, ops[k - 1].at, ops[k].at);
    }
  }

  lemma {:induction false} CountSplits(chosen: seq<bool>, m: nat, n: nat)
    requires m <= n <= |chosen|
    ensures Count(chosen, 0, n) == Count(chosen, 0, m) + Count(chosen, m, n)
  {
    if m < n { CountSplits(chosen, m, n - 1); }
  }

  lemma {:induction false} AdmittedSplits(c: Config, b: Bucket, ops: seq<Op>, m: nat, n: nat)
    requires m <= n <= |ops|
    ensures Admitted(c, b, ops, 0, n) == Admitted(c, b, ops, 0, m) + Admitted(c, b, ops, m, n)
  {
    if m < n { AdmittedSplits(c, b, ops, m, n - 1); }
  }

  /** Greedy admission is optimal: from a full bucket, at every prefix it has let through at
      least as many requests as any selection that respects the rate in every window. */
  lemma {:induction false} GreedyIsOptimal(c: Config, now: real, ops: seq<Op>, chosen: seq<bool>, n: nat)
    requires Plausible(c, Full(c, now), ops) && n <= |ops|
    requires forall i :: 0 <= i < |ops| ==> ops[i].Allow?
    requires Conforms(c, ops, chosen)
    ensures Count(chosen, 0, n) <= Admitted(c, Full(c, now), ops, 0, n)
    decreases n
  {
    var b := Full(c, now);
    if n > 0 {
      GreedyIsOptimal(c, now, ops, chosen, n - 1);
      if chosen[n - 1] && !Admits(c, b, ops, n - 1) {
        var s := FullSince(c, now, ops, n - 1);
        GreedyIsOptimal(c, now, ops, chosen, s);
        CountSplits(chosen, s, n);
        AdmittedSplits(c, b, ops, s, n);
        assert Count(chosen, s, n - 1 + 1) as real <= c.burst + Inflow(c, ops[s].at, ops[n - 1].at);
      }
    }
  }

  /** ... and its own decisions are such a selection, so the optimum is attained. */
  lemma GreedyConforms(c: Config, now: real, ops: seq<Op>)
    requires Plausible(c, Full(c, now), ops)
    requires forall i :: 0 <= i < |ops| ==> ops[i].Allow?
    ensures Conforms(c, ops, Decisions(c, Full(c, now), ops))
  {
    var b := Full(c, now);
    var d := Decisions(c, b, ops);
    forall i, j | 0 <= i <= j < |ops|
      ensures Count(d, i, j + 1) as real <= c.burst + Inflow(c, ops[i].at, ops[j].at)
    {
      WindowBound(c, b, ops, i, j);
      DecisionsCounted(c, b, ops, i, j + 1);
    }
  }

  function Decisions(c: Config, b: Bucket, ops: seq<Op>): (d: seq<bool>)
  {
    seq(|ops|, k requires 0 <= k < |ops| => Admits(c, b, ops, k))
  }

  lemma {:induction false} DecisionsCounted(c: Config, b: Bucket, ops: seq<Op>, lo: nat, hi: nat)
    requires hi <= |ops|
    ensures Count(Decisions(c, b, ops), lo, hi) == Admitted(c, b, ops, lo, hi)
  {
    if lo < hi { DecisionsCounted(c, b, ops, lo, hi - 1); }
  }

  // ---------- Resets ----------

  /** After a reset a full burst is admitted at once. */
  lemma {:induction false} BurstAfterReset(c: Config, b: Bucket, ops: seq<Op>, reset: nat, k: nat)
    requires c.rate >= 0.0 && reset < k < |ops| && ops[reset].Reset?
    requires forall i :: reset < i <= k ==> ops[i].Allow? && ops[i - 1].at <= ops[i].at
    requires (k - reset) as real <= c.burst
    ensures Admits(c, b, ops, k)
  {
    TokensLeft(c, b, ops, reset, k);
    InflowAdds(c, ops[k - 1].at, ops[k].at, ops[k].at);
  }

  lemma {:induction false} TokensLeft(c: Config, b: Bucket, ops: seq<Op>, reset: nat, k: nat)
    requires c.rate >= 0.0 && reset < k < |ops| && ops[reset].Reset?
    requires forall i :: reset < i <= k ==> ops[i].Allow? && ops[i - 1].at <= ops[i].at
    requires (k - reset) as real <= c.burst
    ensures var s := State(c, b, ops, k);
            s.tokens >= c.burst - (k - reset - 1) as real && s.lastRefill == ops[k - 1].at
  {
    if k - 1 > reset {
      TokensLeft(c, b, ops, reset, k - 1);
      InflowAdds(c, ops[k - 2].at, ops[k - 1].at, ops[k - 1].at);
    }
  }
}
