/** The three-state circuit breaker of src/http/model_router.cpp.

    The clock is a parameter counted in nanoseconds, so that the truncation of the elapsed
    time to whole seconds is the one the source performs. */
module CircuitBreakers {
  import opened Wrappers

  datatype CircuitState = Closed | Open | HalfOpen

  datatype Limits = Limits(failureThreshold: int, recoverySeconds: int, halfOpenMax: int)

  datatype Breaker = Breaker(state: CircuitState, failures: int, probes: int, lastFailure: int)

  const FRESH: Breaker := Breaker(Closed, 0, 0, 0)

  datatype Grant = Grant(allowed: bool, breaker: Breaker)

  function Ask(l: Limits, b: Breaker, now: int): Grant {
    match b.state
    case Closed => Grant(true, b)
    case Open =>
      if Elapsed(b.lastFailure, now) >= l.recoverySeconds
      then Grant(true, b.(state := HalfOpen, probes := 0))
      else Grant(false, b)
    case HalfOpen =>
      if b.probes < l.halfOpenMax then Grant(true, b.(probes := b.probes + 1)) else Grant(false, b)
  }

  function Succeed(b: Breaker): Breaker {
    if b.state == HalfOpen then b.(state := Closed, failures := 0, probes := 0) else b.(failures := 0)
  }

  function Fail(l: Limits, b: Breaker, now: int): Breaker {
    var trips := b.state == HalfOpen || b.failures + 1 >= l.failureThreshold;
    b.(failures := b.failures + 1, lastFailure := now, state := if trips then Open else b.state)
  }

  class CircuitBreaker {
    const limits: Limits
    var state: CircuitState
    var failureCount: int
    var halfOpenRequests: int
    var lastFailureTime: int

    function View(): Breaker
      reads this
    {
      Breaker(state, failureCount, halfOpenRequests, lastFailureTime)
    }

    constructor (l: Limits)
      ensures limits == l && View() == FRESH
    {
      limits := l;
      state, failureCount, halfOpenRequests, lastFailureTime := Closed, 0, 0, 0;
    }

    method AllowRequest(now: int) returns (allowed: bool)
      modifies this
      ensures Grant(allowed, View()) == Ask(limits, old(View()), now)
    {
      match state {
        case Closed =>
          return true;
        case Open =>
          if Elapsed(lastFailureTime, now) >= limits.recoverySeconds {
            state, halfOpenRequests := HalfOpen, 0;
            return true;
          }
          return false;
        case HalfOpen =>
          if halfOpenRequests < limits.halfOpenMax {
            halfOpenRequests := halfOpenRequests + 1;
            return true;
          }
          return false;
      }
    }

    method OnSuccess()
      modifies this
      ensures View() == Succeed(old(View()))
    {
      failureCount := 0;
      if state == HalfOpen {
        state, halfOpenRequests := Closed, 0;
      }
    }

    method OnFailure(now: int)
      modifies this
      ensures View() == Fail(limits, old(View()), now)
    {
      failureCount := failureCount + 1;
      lastFailureTime := now;
      if state == HalfOpen {
        state := Open;
      } else if failureCount >= limits.failureThreshold {
        state := Open;
      }
    }
  }

  // ---------- Any interleaving of requests and reports ----------

  datatype Event = Request(at: int) | Success | Failure(at: int)

  function Apply(l: Limits, b: Breaker, e: Event): Breaker {
    match e
    case Request(now) => Ask(l, b, now).breaker
    case Success => Succeed(b)
    case Failure(now) => Fail(l, b, now)
  }

  /** The breaker after a whole history of events, the newest one last. */
  function After(l: Limits, events: seq<Event>): Breaker {
    if events == [] then FRESH else Apply(l, After(l, Init(events)), Last(events))
  }

  function Init(events: seq<Event>): seq<Event>
    requires events != []
  {
    events[..|events| - 1]
  }

  function Last(events: seq<Event>): Event
    requires events != []
  {
    events[|events| - 1]
  }

  function FailuresSinceSuccess(events: seq<Event>): nat {
    if events == [] || Last(events).Success? then 0
    else FailuresSinceSuccess(Init(events)) + if Last(events).Failure? then 1 else 0
  }

  /** When the newest failure was reported (0, the clock's epoch, when none was). */
  function LatestFailure(events: seq<Event>): int {
    if events == [] then 0
    else if Last(events).Failure? then Last(events).at
    else LatestFailure(Init(events))
  }

  predicate Granted(l: Limits, events: seq<Event>)
    requires events != []
  {
    Last(events).Request? && Ask(l, After(l, Init(events)), Last(events).at).allowed
  }

  /** Requests let through in the half-open episode that is still under way, the one that
      began it included; 0 outside an episode. */
  function EpisodeAdmissions(l: Limits, events: seq<Event>): nat {
    if events == [] || After(l, events).state != HalfOpen then 0
    else EpisodeAdmissions(l, Init(events)) + if Granted(l, events) then 1 else 0
  }

  /** What every reachable breaker satisfies. */
  lemma {:induction false} BreakerInvariant(l: Limits, events: seq<Event>)
    ensures After(l, events).failures == FailuresSinceSuccess(events)
    ensures After(l, events).lastFailure == LatestFailure(events)
    ensures After(l, events).state == Closed && l.failureThreshold >= 1
            ==> FailuresSinceSuccess(events) < l.failureThreshold
    ensures After(l, events).state == HalfOpen ==>
              && EpisodeAdmissions(l, events) == After(l, events).probes + 1
              && 0 <= After(l, events).probes <= Max(0, l.halfOpenMax)
    ensures EpisodeAdmissions(l, events) <= Max(0, l.halfOpenMax) + 1
  {
    if events != [] { BreakerInvariant(l, Init(events)); }
  }

  /** An open breaker lets a request through exactly when the recovery time has passed since
      the newest failure. */
  lemma {:induction false} OpenWaitsForRecovery(l: Limits, events: seq<Event>, now: int)
    requires After(l, events).state == Open && LatestFailure(events) <= now
    ensures Granted(l, events + [Request(now)])
       <==> now - LatestFailure(events) >= l.recoverySeconds * NANOS_PER_SECOND
  {
    BreakerInvariant(l, events);
    assert Init(events + [Request(now)]) == events;
    WholeSeconds(now - LatestFailure(events), l.recoverySeconds);
  }

  /** Every refusal explained: the breaker is open and not recovered, or the half-open episode has
      had its probes. */
  lemma {:induction false} RefusedExactlyWhen(l: Limits, events: seq<Event>, now: int)
    requires LatestFailure(events) <= now
    ensures var state := After(l, events).state;
            !Granted(l, events + [Request(now)]) <==>
              || (state == Open && now - LatestFailure(events) < l.recoverySeconds * NANOS_PER_SECOND)
              || (state == HalfOpen && EpisodeAdmissions(l, events) > l.halfOpenMax)
  {
    BreakerInvariant(l, events);
    assert Init(events + [Request(now)]) == events;
    WholeSeconds(now - LatestFailure(events), l.recoverySeconds);
  }

  /** What a report does: either kind ends a half-open episode; a success reopens for traffic a
      breaker that was probing; after a failure the breaker stays closed only if it was closed
      and the failures since the last success are still below the threshold. */
  lemma {:induction false} ReportsDecide(l: Limits, events: seq<Event>)
    requires events != [] && !Last(events).Request?
    ensures var before, after := After(l, Init(events)).state, After(l, events).state;
            && after != HalfOpen
            && (Last(events).Success? ==> (after == Closed <==> before != Open))
            && (Last(events).Failure? ==>
                  (after == Closed <==> before == Closed && FailuresSinceSuccess(events) < l.failureThreshold))
  {
    BreakerInvariant(l, Init(events));
  }

  lemma WholeSeconds(nanos: int, seconds: int)
    requires nanos >= 0
    ensures nanos / NANOS_PER_SECOND >= seconds <==> nanos >= seconds * NANOS_PER_SECOND
  {
  }

  function Repeated(e: Event, n: nat): (r: seq<Event>)
    ensures |r| == n
  {
    seq(n, _ => e)
  }

  lemma Extended(events: seq<Event>, e: Event)
    ensures Init(events + [e]) == events && Last(events + [e]) == e
  {
  }

  /** Failures alone open the breaker at the threshold, and no sooner. */
  lemma {:induction false} FailuresTrip(l: Limits, n: nat)
    ensures After(l, Repeated(Failure(0), n))
         == Breaker(if n >= Max(1, l.failureThreshold) then Open else Closed, n, 0, 0)
  {
    if n > 0 {
      FailuresTrip(l, n - 1);
      Extended(Repeated(Failure(0), n - 1), Failure(0));
      assert Repeated(Failure(0), n) == Repeated(Failure(0), n - 1) + [Failure(0)];
    }
  }

  /** An open breaker that has recovered lets one request through and then the probes. */
  lemma {:induction false} ProbesPass(l: Limits, events: seq<Event>, t: int, n: nat)
    requires After(l, events).state == Open && Elapsed(After(l, events).lastFailure, t) >= l.recoverySeconds
    requires n <= Max(0, l.halfOpenMax)
    ensures var run := events + Repeated(Request(t), n + 1);
            && After(l, run).state == HalfOpen && After(l, run).probes == n
            && EpisodeAdmissions(l, run) == n + 1
  {
    var before, run := events + Repeated(Request(t), n), events + Repeated(Request(t), n + 1);
    assert run == before + [Request(t)];
    Extended(before, Request(t));
    if n == 0 {
      assert before == events;
    } else {
      ProbesPass(l, events, t, n - 1);
    }
  }

  /** The bound on an episode is met, whatever the limits are. */
  lemma EpisodeBoundIsTight(l: Limits)
    ensures exists events :: EpisodeAdmissions(l, events) == Max(0, l.halfOpenMax) + 1
  {
    var failures := Repeated(Failure(0), Max(1, l.failureThreshold));
    var t := Max(0, l.recoverySeconds) * NANOS_PER_SECOND;
    FailuresTrip(l, Max(1, l.failureThreshold));
    WholeSeconds(t, l.recoverySeconds);
    ProbesPass(l, failures, t, Max(0, l.halfOpenMax));
  }
}
