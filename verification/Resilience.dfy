/** CircuitBreaker and with_retries of omniai/engine/resilience.py. Time is a real that the
    caller passes in; the breaker's `call` is split at its one await into `Enter` and the two
    `Record` methods. */
module Resilience {
  import opened Numbers

  datatype State = Closed | Open | HalfOpen

  /** The four fields of a CircuitBreaker. */
  datatype Breaker = Breaker(state: State, failures: nat, openedAt: real, probing: bool)

  datatype Entry = Admitted | RejectedOpen | RejectedProbing

  const FRESH := Breaker(Closed, 0, 0.0, false)

  function MaybeHalfOpen(b: Breaker, reset: real, now: real): Breaker {
    if b.state == Open && now - b.openedAt >= reset then b.(state := HalfOpen) else b
  }

  /** The part of `call` before the await. */
  function Enter(b: Breaker, reset: real, now: real): (Breaker, Entry) {
    var ready := MaybeHalfOpen(b, reset, now);
    match ready.state
    case Open => (ready, RejectedOpen)
    case HalfOpen => if ready.probing then (ready, RejectedProbing) else (ready.(probing := true), Admitted)
    case Closed => (ready, Admitted)
  }

  function RecordFailure(b: Breaker, threshold: int, now: real): Breaker {
    var counted := b.(probing := false, failures := b.failures + 1);
    if counted.state == HalfOpen || counted.failures >= threshold
    then counted.(state := Open, openedAt := now)
    else counted
  }

  function RecordSuccess(b: Breaker): Breaker {
    b.(probing := false, failures := 0, state := Closed)
  }

  class CircuitBreaker {
    const failureThreshold: int
    const resetTimeout: real
    var state: State
    var failures: nat
    var openedAt: real
    var probing: bool

    function View(): Breaker
      reads this
    {
      Breaker(state, failures, openedAt, probing)
    }

    constructor (failureThreshold: int, resetTimeout: real)
      ensures View() == FRESH
      ensures this.failureThreshold == failureThreshold && this.resetTimeout == resetTimeout
    {
      this.failureThreshold := failureThreshold;
      this.resetTimeout := resetTimeout;
      state, failures, openedAt, probing := Closed, 0, 0.0, false;
    }

    method EnterCall(now: real) returns (entry: Entry)
      modifies this
      ensures (View(), entry) == Enter(old(View()), resetTimeout, now)
    {
      if state == Open && now - openedAt >= resetTimeout {
        state := HalfOpen;
      }
      if state == Open {
        return RejectedOpen;
      }
      if state == HalfOpen {
        if probing {
          return RejectedProbing;
        }
        probing := true;
      }
      return Admitted;
    }

    method OnFailure(now: real)
      modifies this
      ensures View() == RecordFailure(old(View()), failureThreshold, now)
    {
      probing := false;
      failures := failures + 1;
      if state == HalfOpen || failures >= failureThreshold {
        state := Open;
        openedAt := now;
      }
    }

    method OnSuccess()
      modifies this
      ensures View() == RecordSuccess(old(View()))
    {
      probing := false;
      failures := 0;
      state := Closed;
    }
  }

  // ---- retries ----

  /** What one HTTP attempt ends with. */
  datatype Reply = Ok | Transient | Fatal

  /** What with_retries returns or raises; with no attempts its closing assertion fails. */
  datatype Outcome = Returned | RaisedTransient | RaisedFatal | AssertionFailed

  /** base * 2^n. */
  function Doubled(base: real, n: nat): real {
    if n == 0 then base else 2.0 * Doubled(base, n - 1)
  }

  /** A capped delay scaled by a jitter factor. */
  function Jittered(cap: real, step: real, jitter: real): (delay: real)
    ensures cap >= 0.0 && step >= 0.0 && 0.0 <= jitter < 1.0 ==> 0.0 <= delay <= cap && delay <= step
  {
    var m := Min(cap, step);
    assert m >= 0.0 && 0.0 <= jitter < 1.0 ==> 0.0 <= m * jitter <= m by {
      if m >= 0.0 && 0.0 <= jitter < 1.0 {
        ProductIsNonNegative(m, jitter);
        ProductIsNonNegative(m, 1.0 - jitter);
      }
    }
    m * jitter
  }

  lemma ProductIsNonNegative(x: real, y: real)
    requires x >= 0.0 && y >= 0.0
    ensures x * y >= 0.0
  {
  }

  /** Backoff before attempt i + 1. */
  function Backoff(baseDelay: real, maxDelay: real, i: nat, jitter: real): real {
    Jittered(maxDelay, Doubled(baseDelay, i), jitter)
  }

  /** `replies(i)` is the outcome the i-th attempt would have. The attempts made are the shortest
      sequence that ends with a reply that is not transient or uses up all attempts, and a sleep
      separates each two of them. */
  method WithRetries(replies: nat -> Reply, attempts: int, baseDelay: real, maxDelay: real, jitter: nat -> real)
    returns (outcome: Outcome, sent: nat, slept: seq<real>)
    ensures sent == 0 <==> attempts <= 0
    ensures sent == 0 <==> outcome.AssertionFailed?
    ensures attempts > 0 ==> sent <= attempts
    ensures forall i :: 0 <= i < sent - 1 ==> replies(i).Transient?
    ensures sent > 0 ==> !replies(sent - 1).Transient? || sent == attempts
    ensures sent > 0 ==> (outcome.Returned? <==> replies(sent - 1).Ok?)
    ensures sent > 0 ==> (outcome.RaisedFatal? <==> replies(sent - 1).Fatal?)
    ensures |slept| == if sent == 0 then 0 else sent - 1
    ensures forall i :: 0 <= i < |slept| ==> slept[i] == Backoff(baseDelay, maxDelay, i, jitter(i))
  {
    sent, slept := 0, [];
    while sent < attempts
      invariant (attempts <= 0 ==> sent == 0) && (attempts > 0 ==> sent < attempts) && |slept| == sent
      invariant forall i :: 0 <= i < sent ==> replies(i).Transient?
      invariant forall i :: 0 <= i < |slept| ==> slept[i] == Backoff(baseDelay, maxDelay, i, jitter(i))
    {
      var attempt := sent;
      sent := sent + 1;
      match replies(attempt)
      case Ok =>
        return Returned, sent, slept;
      case Fatal =>
        return RaisedFatal, sent, slept;
      case Transient =>
        if attempt == attempts - 1 {
          return RaisedTransient, sent, slept;
        }
        slept := slept + [Backoff(baseDelay, maxDelay, attempt, jitter(attempt))];
    }
    outcome := AssertionFailed;
  }

  /** With the same jitter the sleep doubles from attempt to attempt, from the base delay on, until it
      reaches the cap, and stays there. */
  lemma BackoffDoubles(baseDelay: real, maxDelay: real, i: nat, jitter: real)
    ensures baseDelay <= maxDelay ==> Backoff(baseDelay, maxDelay, 0, jitter) == baseDelay * jitter
    ensures Doubled(baseDelay, i) <= Doubled(baseDelay, i + 1) <= maxDelay ==>
              Backoff(baseDelay, maxDelay, i + 1, jitter) == 2.0 * Backoff(baseDelay, maxDelay, i, jitter)
    ensures Doubled(baseDelay, i) >= maxDelay ==> Backoff(baseDelay, maxDelay, i, jitter) == maxDelay * jitter
  {
    TwiceProduct(Doubled(baseDelay, i), jitter);
  }

  lemma TwiceProduct(x: real, y: real)
    ensures (2.0 * x) * y == 2.0 * (x * y)
  {
  }

  function SumOf(xs: seq<real>): real {
    if xs == [] then 0.0 else SumOf(xs[..|xs| - 1]) + xs[|xs| - 1]
  }

  /** Sleeps never exceed the cap, and n of them add up to no more than base * (2^n - 1). */
  lemma BackoffIsBounded(baseDelay: real, maxDelay: real, jitter: nat -> real, slept: seq<real>)
    requires baseDelay >= 0.0 && maxDelay >= 0.0
    requires forall i :: 0.0 <= jitter(i) < 1.0
    requires forall i :: 0 <= i < |slept| ==> slept[i] == Backoff(baseDelay, maxDelay, i, jitter(i))
    ensures forall i :: 0 <= i < |slept| ==> 0.0 <= slept[i] <= maxDelay
    ensures SumOf(slept) <= Doubled(baseDelay, |slept|) - baseDelay
  {
    forall i | 0 <= i < |slept|
      ensures 0.0 <= slept[i] <= maxDelay && slept[i] <= Doubled(baseDelay, i)
    {
      OneBackoff(baseDelay, maxDelay, i, jitter(i));
    }
    GeometricSum(baseDelay, slept);
  }

  lemma OneBackoff(baseDelay: real, maxDelay: real, i: nat, jitter: real)
    requires baseDelay >= 0.0 && maxDelay >= 0.0 && 0.0 <= jitter < 1.0
    ensures 0.0 <= Backoff(baseDelay, maxDelay, i, jitter) <= maxDelay
    ensures Backoff(baseDelay, maxDelay, i, jitter) <= Doubled(baseDelay, i)
  {
    DoubledIsNonNegative(baseDelay, i);
  }

  lemma {:induction false} GeometricSum(base: real, slept: seq<real>)
    requires forall i :: 0 <= i < |slept| ==> slept[i] <= Doubled(base, i)
    ensures SumOf(slept) <= Doubled(base, |slept|) - base
    decreases |slept|
  {
    if slept != [] {
      GeometricSum(base, slept[..|slept| - 1]);
    }
  }

  lemma {:induction false} DoubledIsNonNegative(base: real, n: nat)
    requires base >= 0.0
    ensures Doubled(base, n) >= 0.0
  {
    if n > 0 {
      DoubledIsNonNegative(base, n - 1);
    }
  }
}
