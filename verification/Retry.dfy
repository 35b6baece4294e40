/** The retry decorator of resilience/retry.py, and its composition with the circuit breaker. */
module Retry {
  import opened CircuitBreakers

  /** How one attempt ends: with a result, an exception that is retried on, any other exception, or a cancellation. */
  datatype Try = Success | Retryable | Fatal | Cancellation

  datatype Verdict = Result | Reraised | RetryExhausted | Abandoned

  datatype Policy = Policy(maxAttempts: int, baseDelay: real, maxDelay: real)

  function Power2(k: nat): nat {
    if k == 0 then 1 else 2 * Power2(k - 1)
  }

  function Least(x: real, y: real): real {
    if x <= y then x else y
  }

  function Backoff(p: Policy, k: nat): real {
    Least(p.baseDelay * Power2(k) as real, p.maxDelay)
  }

  /** A delay and up to half as much again. */
  function Spread(delay: real, jitter: real): real {
    delay + delay * 0.5 * jitter
  }

  /** The sleep after attempt k; `jitter` is where the random draw falls between 0 and half the delay. */
  function Delay(p: Policy, jitter: nat -> real, k: nat): real {
    Spread(Backoff(p, k), jitter(k))
  }

  function TotalDelay(p: Policy, jitter: nat -> real, n: nat): real {
    if n == 0 then 0.0 else TotalDelay(p, jitter, n - 1) + Delay(p, jitter, n - 1)
  }

  function TotalBackoff(p: Policy, n: nat): real {
    if n == 0 then 0.0 else TotalBackoff(p, n - 1) + Backoff(p, n - 1)
  }

  function Limit(p: Policy): nat {
    if p.maxAttempts > 0 then p.maxAttempts else 0
  }

  /** Attempt k is made and decides: it is the first that does not end in a retryable exception. */
  ghost predicate FirstDecisive(p: Policy, attempt: nat -> Try, k: nat) {
    k < Limit(p) && !attempt(k).Retryable? && forall j: nat :: j < k ==> attempt(j).Retryable?
  }

  /** `attempt(k)` tells how the k-th attempt would end; `used` of them are made. */
  method WithRetry(p: Policy, attempt: nat -> Try, jitter: nat -> real) returns (v: Verdict, used: nat, slept: real)
    ensures used == 0 || used <= p.maxAttempts
    ensures v.Result? <==> exists k: nat :: FirstDecisive(p, attempt, k) && attempt(k).Success?
    ensures v.Reraised? <==> exists k: nat :: FirstDecisive(p, attempt, k) && attempt(k).Fatal?
    ensures v.Abandoned? <==> exists k: nat :: FirstDecisive(p, attempt, k) && attempt(k).Cancellation?
    ensures !v.RetryExhausted? ==> used > 0 && FirstDecisive(p, attempt, used - 1)
    ensures v.RetryExhausted? ==>
              && used == (if p.maxAttempts > 0 then p.maxAttempts else 0)
              && forall k: nat :: k < Limit(p) ==> attempt(k).Retryable?
    ensures slept == TotalDelay(p, jitter, if used == 0 then 0 else used - 1)
  {
    used, slept := 0, 0.0;
    while used < Limit(p)
      invariant 0 <= used <= Limit(p)
      invariant forall k: nat :: k < used ==> attempt(k).Retryable?
      invariant used < Limit(p) ==> slept == TotalDelay(p, jitter, used)
      invariant used == Limit(p) ==> slept == TotalDelay(p, jitter, if used == 0 then 0 else used - 1)
    {
      var k := used;
      used := used + 1;
      match attempt(k) {
        case Success =>
          assert FirstDecisive(p, attempt, k);
          return Result, used, slept;
        case Fatal =>
          assert FirstDecisive(p, attempt, k);
          return Reraised, used, slept;
        case Cancellation =>
          assert FirstDecisive(p, attempt, k);
          return Abandoned, used, slept;
        case Retryable =>
          if k == Limit(p) - 1 {
            break;
          }
          slept := slept + Delay(p, jitter, k);
      }
    }
    return RetryExhausted, used, slept;
  }

  /** The delay starts at the base and doubles with every attempt, up to the maximum. */
  lemma BackoffDoubles(p: Policy, k: nat)
    requires p.maxDelay >= 0.0
    ensures Backoff(p, 0) == Least(p.baseDelay, p.maxDelay)
    ensures Backoff(p, k + 1) == Least(2.0 * Backoff(p, k), p.maxDelay)
  {
    Doubled(p.baseDelay, Power2(k) as real, Power2(k + 1) as real);
  }

  lemma Doubled(x: real, n: real, m: real)
    requires m == 2.0 * n
    ensures x * m == 2.0 * (x * n)
  {
  }

  lemma DelayBound(p: Policy, jitter: nat -> real, k: nat)
    requires p.baseDelay >= 0.0 && p.maxDelay >= 0.0 && 0.0 <= jitter(k) <= 1.0
    ensures Backoff(p, k) <= Delay(p, jitter, k) <= 1.5 * Backoff(p, k)
    ensures jitter(k) == 0.0 ==> Delay(p, jitter, k) == Backoff(p, k)
    ensures jitter(k) == 1.0 ==> Delay(p, jitter, k) == 1.5 * Backoff(p, k)
  {
    ProductIsNotNegative(p.baseDelay, Power2(k) as real);
    SpreadBound(Backoff(p, k), jitter(k));
  }

  lemma ProductIsNotNegative(x: real, y: real)
    requires x >= 0.0 && y >= 0.0
    ensures x * y >= 0.0
  {
  }

  lemma SpreadBound(b: real, j: real)
    requires b >= 0.0 && 0.0 <= j <= 1.0
    ensures b <= Spread(b, j) <= 1.5 * b
    ensures j == 0.0 ==> Spread(b, j) == b
    ensures j == 1.0 ==> Spread(b, j) == 1.5 * b
  {
    var half := b * 0.5;
    ProductIsNotNegative(half, j);
    ProductIsNotNegative(half, 1.0 - j);
    assert half * (1.0 - j) == half - half * j;
  }

  /** A call never sleeps longer than one and a half times its backoffs. */
  lemma {:induction false} SleepBound(p: Policy, jitter: nat -> real, n: nat)
    requires p.baseDelay >= 0.0 && p.maxDelay >= 0.0 && forall k: nat :: 0.0 <= jitter(k) <= 1.0
    ensures TotalBackoff(p, n) <= TotalDelay(p, jitter, n) <= 1.5 * TotalBackoff(p, n)
  {
    if n > 0 {
      SleepBound(p, jitter, n - 1);
      DelayBound(p, jitter, n - 1);
    }
  }

  /** A breaker around a retried function: attempts are made only if the breaker lets the call through. */
  method GuardedCall(b: CircuitBreaker, p: Policy, attempt: nat -> Try, jitter: nat -> real, start: real, busy: real)
    returns (r: CallResult, c: Call)
    modifies b
    ensures (b.View(), r) == Perform(b.settings, old(b.View()), c) && c.start == start && c.attempts <= Limit(p)
    ensures r.Refused? ==> c.attempts == 0
    ensures r.Returned? <==> !r.Refused? && exists k: nat :: FirstDecisive(p, attempt, k) && attempt(k).Success?
    ensures r.Interrupted? <==> !r.Refused? && exists k: nat :: FirstDecisive(p, attempt, k) && attempt(k).Cancellation?
    ensures !r.Refused? ==> c.end == start + busy + TotalDelay(p, jitter, if c.attempts == 0 then 0 else c.attempts - 1)
  {
    var wait := b.Admit(start);
    if wait.Some? {
      return Refused(wait.value), Call(start, start, Fails, 0);
    }
    var v, used, slept := WithRetry(p, attempt, jitter);
    var outcome := if v.Result? then Succeeds else if v.Abandoned? then Cancelled else Fails;
    c := Call(start, start + busy + slept, outcome, used);
    r := b.Settle(outcome, c.end);
  }
}
