/** The circuit breaker of resilience/circuit_breaker.py, with calls that do not overlap. */
module CircuitBreakers {
  import opened Text

  datatype CircuitState = Closed | Open | HalfOpen

  datatype Settings = Settings(failureThreshold: int, resetTimeout: real)

  datatype Breaker = Breaker(state: CircuitState, consecutiveFailures: nat, openedAt: Option<real>)

  const FRESH := Breaker(Closed, 0, None)

  /** How a call that is let through ends. A cancellation is no Exception, so the breaker does not see it. */
  datatype CallOutcome = Succeeds | Fails | Cancelled

  /** What a caller gets: the refusal with its waiting time, the result, the exception, or the cancellation. */
  datatype CallResult = Refused(retryAfter: real) | Returned | Raised | Interrupted

  /** A call with the time it starts, and the time and the way it ends if it is let through. */
  datatype Call = Call(start: real, end: real, outcome: CallOutcome, attempts: nat)

  /** The state getter: an open breaker whose timeout has elapsed becomes half-open. */
  function Observe(p: Settings, b: Breaker, now: real): Breaker {
    if b.state.Open? && b.openedAt.Some? && now - b.openedAt.value >= p.resetTimeout then b.(state := HalfOpen) else b
  }

  function RecordFailure(p: Settings, b: Breaker, now: real): Breaker {
    var failures := b.consecutiveFailures + 1;
    if failures >= p.failureThreshold then Breaker(Open, failures, Some(now)) else b.(consecutiveFailures := failures)
  }

  function WaitFor(p: Settings, b: Breaker, now: real): real {
    var wait := p.resetTimeout - (now - if b.openedAt.Some? then b.openedAt.value else 0.0);
    if wait > 0.0 then wait else 0.0
  }

  function Settled(p: Settings, b: Breaker, outcome: CallOutcome, now: real): (Breaker, CallResult) {
    match outcome
    case Succeeds => (FRESH, Returned)
    case Fails => (RecordFailure(p, b, now), Raised)
    case Cancelled => (b, Interrupted)
  }

  function Perform(p: Settings, b: Breaker, c: Call): (Breaker, CallResult) {
    var seen := Observe(p, b, c.start);
    if seen.state.Open? then (seen, Refused(WaitFor(p, seen, c.start)))
    else Settled(p, seen, c.outcome, c.end)
  }

  class CircuitBreaker {
    const settings: Settings
    var state: CircuitState
    var consecutiveFailures: nat
    var openedAt: Option<real>

    ghost function View(): Breaker
      reads this
    {
      Breaker(state, consecutiveFailures, openedAt)
    }

    constructor (settings: Settings)
      ensures this.settings == settings && View() == FRESH
    {
      this.settings := settings;
      state, consecutiveFailures, openedAt := Closed, 0, None;
    }

    method ObserveState(now: real) returns (s: CircuitState)
      modifies this
      ensures View() == Observe(settings, old(View()), now) && s == state
    {
      if state == Open && openedAt.Some? {
        if now - openedAt.value >= settings.resetTimeout {
          state := HalfOpen;
        }
      }
      return state;
    }

    method RecordSuccess()
      modifies this
      ensures View() == FRESH
    {
      consecutiveFailures := 0;
      state := Closed;
      openedAt := None;
    }

    method NoteFailure(now: real)
      modifies this
      ensures View() == RecordFailure(settings, old(View()), now)
    {
      consecutiveFailures := consecutiveFailures + 1;
      if consecutiveFailures >= settings.failureThreshold {
        state := Open;
        openedAt := Some(now);
      }
    }

    /** The check before the call: the waiting time of a refusal, or nothing. */
    method Admit(now: real) returns (wait: Option<real>)
      modifies this
      ensures View() == Observe(settings, old(View()), now)
      ensures wait == if View().state.Open? then Some(WaitFor(settings, View(), now)) else None
    {
      var current := ObserveState(now);
      if current == Open {
        var remaining := settings.resetTimeout - (now - if openedAt.Some? then openedAt.value else 0.0);
        return Some(if remaining > 0.0 then remaining else 0.0);
      }
      return None;
    }

    /** What is recorded when a call that was let through ends. */
    method Settle(outcome: CallOutcome, now: real) returns (r: CallResult)
      modifies this
      ensures (View(), r) == Settled(settings, old(View()), outcome, now)
    {
      match outcome
      case Cancelled => return Interrupted;
      case Fails =>
        NoteFailure(now);
        return Raised;
      case Succeeds =>
        RecordSuccess();
        return Returned;
    }

    method CallThrough(c: Call) returns (r: CallResult)
      modifies this
      ensures (View(), r) == Perform(settings, old(View()), c)
    {
      var wait := Admit(c.start);
      if wait.Some? {
        return Refused(wait.value);
      }
      r := Settle(c.outcome, c.end);
    }
  }

  // ---------- The waiting time is exact ----------

  /** Consecutive failures at the threshold keep the breaker from being closed, and an open one knows since when. */
  ghost predicate Wellformed(p: Settings, b: Breaker) {
    && (b.state.Open? ==> b.openedAt.Some?)
    && (b.consecutiveFailures >= Threshold(p) ==> !b.state.Closed?)
    && (!b.state.Closed? ==> b.consecutiveFailures >= Threshold(p))
  }

  /** A threshold below one acts like one. */
  function Threshold(p: Settings): nat {
    if p.failureThreshold > 1 then p.failureThreshold else 1
  }

  /** Every state that a breaker can get into is wellformed. */
  lemma PerformKeepsWellformed(p: Settings, b: Breaker, c: Call)
    ensures Wellformed(p, FRESH)
    ensures Wellformed(p, b) ==> Wellformed(p, Perform(p, b, c).0)
  {
  }

  /** After a refusal, the next call is let through exactly when the announced time has passed. */
  lemma RetryAfterIsExact(p: Settings, b: Breaker, c: Call, next: Call)
    requires Wellformed(p, b) && Perform(p, b, c).1.Refused?
    ensures var (after, r) := Perform(p, b, c);
            r.retryAfter > 0.0 && (!Perform(p, after, next).1.Refused? <==> next.start >= c.start + r.retryAfter)
  {
  }

  // ---------- An outage ----------

  /** Calls follow one another, the first not before `from_`. */
  ghost predicate Sequential(calls: seq<Call>, from_: real)
    decreases |calls|
  {
    calls != [] ==> from_ <= calls[0].start <= calls[0].end && Sequential(calls[1..], calls[0].end)
  }

  ghost predicate NoneSucceeds(calls: seq<Call>) {
    forall i :: 0 <= i < |calls| ==> !calls[i].outcome.Succeeds?
  }

  function LastEnd(calls: seq<Call>, from_: real): real {
    if calls == [] then from_ else calls[|calls| - 1].end
  }

  /** How many of the calls are let through and fail. */
  function Failed(p: Settings, b: Breaker, calls: seq<Call>): nat
    decreases |calls|
  {
    if calls == [] then 0
    else
      var (after, r) := Perform(p, b, calls[0]);
      Failed(p, after, calls[1..]) + if r.Raised? then 1 else 0
  }

  /** How many of the calls are let through and cancelled. */
  function CutOff(p: Settings, b: Breaker, calls: seq<Call>): nat
    decreases |calls|
  {
    if calls == [] then 0
    else
      var (after, r) := Perform(p, b, calls[0]);
      CutOff(p, after, calls[1..]) + if r.Interrupted? then 1 else 0
  }

  /** The upstream attempts that the calls make; a refused call makes none. */
  function Attempts(p: Settings, b: Breaker, calls: seq<Call>): nat
    decreases |calls|
  {
    if calls == [] then 0
    else
      var (after, r) := Perform(p, b, calls[0]);
      Attempts(p, after, calls[1..]) + if r.Refused? then 0 else calls[0].attempts
  }

  /** How many failing calls a breaker in this state lets through at once. */
  function Allowance(p: Settings, b: Breaker): nat {
    if b.consecutiveFailures < Threshold(p) then Threshold(p) - b.consecutiveFailures else 1
  }

  /** k timeouts in a row; none if k is not positive. */
  function Timeouts(k: int, r: real): real {
    if k <= 0 then 0.0 else Timeouts(k - 1, r) + r
  }

  lemma {:induction false} TimeoutsIsProduct(k: nat, r: real)
    ensures Timeouts(k, r) == k as real * r
  {
    if k > 0 {
      TimeoutsIsProduct(k - 1, r);
      assert k as real * r == (k - 1) as real * r + r;
    }
  }

  lemma {:induction false} FewerTimeouts(k: int, n: int, r: real)
    requires k <= n && r >= 0.0
    ensures 0.0 <= Timeouts(k, r) <= Timeouts(n, r)
    decreases n
  {
    if n > 0 {
      FewerTimeouts(if k < n then k else n - 1, n - 1, r);
    }
  }

  lemma {:induction false} LastEndIsLater(calls: seq<Call>, from_: real)
    requires Sequential(calls, from_)
    ensures LastEnd(calls, from_) >= from_
    decreases |calls|
  {
    if calls != [] {
      LastEndIsLater(calls[1..], calls[0].end);
    }
  }

  /** From a breaker opened at t, each failing call costs one timeout, whatever is cancelled in between. */
  lemma {:induction false} OpenedOutage(p: Settings, b: Breaker, calls: seq<Call>, from_: real)
    requires p.resetTimeout >= 0.0 && Wellformed(p, b) && !b.state.Closed? && b.openedAt.Some?
    requires b.openedAt.value + (if b.state.HalfOpen? then p.resetTimeout else 0.0) <= from_
    requires Sequential(calls, from_) && NoneSucceeds(calls)
    ensures Timeouts(Failed(p, b, calls), p.resetTimeout) <= LastEnd(calls, from_) - b.openedAt.value
    decreases |calls|
  {
    if calls != [] {
      var (after, r) := Perform(p, b, calls[0]);
      PerformKeepsWellformed(p, b, calls[0]);
      assert NoneSucceeds(calls[1..]);
      OpenedOutage(p, after, calls[1..], calls[0].end);
    }
  }

  /** From any state, the failing calls beyond the allowance cost one timeout each. */
  lemma {:induction false} OutageSpan(p: Settings, b: Breaker, calls: seq<Call>, from_: real)
    requires p.resetTimeout >= 0.0 && Wellformed(p, b) && (b.state.Open? ==> b.openedAt.value <= from_)
    requires Sequential(calls, from_) && NoneSucceeds(calls)
    ensures Timeouts(Failed(p, b, calls) - Allowance(p, b), p.resetTimeout) <= LastEnd(calls, from_) - from_
    decreases |calls|
  {
    LastEndIsLater(calls, from_);
    if calls != [] {
      var (after, r) := Perform(p, b, calls[0]);
      PerformKeepsWellformed(p, b, calls[0]);
      assert NoneSucceeds(calls[1..]);
      if after.state.Open? && r.Raised? {
        OpenedOutage(p, after, calls[1..], calls[0].end);
      } else {
        OutageSpan(p, after, calls[1..], calls[0].end);
      }
    }
  }

  lemma {:induction false} AttemptsPerCall(p: Settings, b: Breaker, calls: seq<Call>, perCall: nat)
    requires NoneSucceeds(calls) && forall i :: 0 <= i < |calls| ==> calls[i].attempts <= perCall
    ensures Attempts(p, b, calls) <= perCall * (Failed(p, b, calls) + CutOff(p, b, calls))
    decreases |calls|
  {
    if calls != [] {
      var (after, r) := Perform(p, b, calls[0]);
      assert NoneSucceeds(calls[1..]);
      AttemptsPerCall(p, after, calls[1..], perCall);
      OneMoreTime(perCall, Failed(p, after, calls[1..]) + CutOff(p, after, calls[1..]));
    }
  }

  lemma OneMoreTime(k: nat, n: nat)
    ensures k * (n + 1) == k * n + k
  {
  }

  lemma FloorBound(n: nat, length: real, r: real)
    requires r > 0.0 && n as real * r <= length
    ensures n <= (length / r).Floor
  {
    var slack := length - n as real * r;
    assert slack / r >= 0.0;
    assert slack / r == length / r - n as real;
  }

  lemma Scaled(k: nat, m: nat, n: nat, x: nat)
    requires m <= n && x <= k * m
    ensures x <= k * n
  {
    assert k * (n - m) >= 0;
    assert k * n == k * m + k * (n - m);
  }

  /** How many timeouts fit into a stretch of time. */
  function Fitting(length: real, r: real): int
    requires r > 0.0
  {
    (length / r).Floor
  }

  /** While no call succeeds, n calls that fail span at least (n - threshold) timeouts. */
  lemma FailuresTakeTime(p: Settings, b: Breaker, calls: seq<Call>, from_: real)
    requires p.resetTimeout >= 0.0 && Wellformed(p, b) && (b.state.Open? ==> b.openedAt.value <= from_)
    requires Sequential(calls, from_) && NoneSucceeds(calls)
    ensures Timeouts(Failed(p, b, calls) - Threshold(p), p.resetTimeout) <= LastEnd(calls, from_) - from_
  {
    OutageSpan(p, b, calls, from_);
    FewerTimeouts(Failed(p, b, calls) - Threshold(p), Failed(p, b, calls) - Allowance(p, b), p.resetTimeout);
  }

  lemma AdmittedBound(n: nat, t: nat, length: real, r: real)
    requires r > 0.0 && length >= 0.0 && Timeouts(n - t, r) <= length
    ensures n <= t + Fitting(length, r) && Fitting(length, r) >= 0
  {
    FloorBound(0, length, r);
    if n >= t {
      TimeoutsIsProduct(n - t, r);
      FloorBound(n - t, length, r);
    }
  }

  /**
   So an outage costs at most perCall * (threshold + floor(length / timeout)) attempts, besides those of
   cancelled calls.
   */
  lemma OutageCost(p: Settings, b: Breaker, calls: seq<Call>, from_: real, perCall: nat) returns (callBound: nat)
    requires p.resetTimeout > 0.0 && Wellformed(p, b) && (b.state.Open? ==> b.openedAt.value <= from_)
    requires Sequential(calls, from_) && NoneSucceeds(calls)
    requires forall i :: 0 <= i < |calls| ==> calls[i].attempts <= perCall
    ensures callBound == Threshold(p) + Fitting(LastEnd(calls, from_) - from_, p.resetTimeout)
    ensures Failed(p, b, calls) <= callBound
    ensures Attempts(p, b, calls) <= perCall * (callBound + CutOff(p, b, calls))
  {
    var n, cut, length := Failed(p, b, calls), CutOff(p, b, calls), LastEnd(calls, from_) - from_;
    LastEndIsLater(calls, from_);
    FailuresTakeTime(p, b, calls, from_);
    AdmittedBound(n, Threshold(p), length, p.resetTimeout);
    callBound := Threshold(p) + Fitting(length, p.resetTimeout);
    AttemptsPerCall(p, b, calls, perCall);
    Scaled(perCall, n + cut, callBound + cut, Attempts(p, b, calls));
  }

  /** A cancelled trial settles nothing: the breaker stays half-open and the next call is let through at once. */
  lemma CancelledTrialIsRepeated(p: Settings, b: Breaker, c: Call, next: Call)
    requires c.outcome.Cancelled? && !Perform(p, b, c).1.Refused?
    ensures var (after, r) := Perform(p, b, c);
            && r == Interrupted && after.consecutiveFailures == b.consecutiveFailures && after.openedAt == b.openedAt
            && !Perform(p, after, next).1.Refused?
  {
  }

  // ---------- From success to the next outage ----------

  ghost predicate AllFail(calls: seq<Call>) {
    forall i :: 0 <= i < |calls| ==> calls[i].outcome.Fails?
  }

  function AfterAll(p: Settings, b: Breaker, calls: seq<Call>): Breaker
    decreases |calls|
  {
    if calls == [] then b else AfterAll(p, Perform(p, b, calls[0]).0, calls[1..])
  }

  lemma {:induction false} FailuresAddUp(p: Settings, b: Breaker, calls: seq<Call>)
    requires b.state.Closed? && AllFail(calls) && b.consecutiveFailures + |calls| <= Threshold(p)
    requires b.consecutiveFailures < Threshold(p)
    ensures Failed(p, b, calls) == |calls|
    ensures AfterAll(p, b, calls).state.Open? <==> b.consecutiveFailures + |calls| == Threshold(p)
    ensures !AfterAll(p, b, calls).state.HalfOpen?
    decreases |calls|
  {
    if calls != [] {
      var (after, r) := Perform(p, b, calls[0]);
      assert AllFail(calls[1..]);
      if |calls| == 1 {
        assert calls[1..] == [];
      } else {
        FailuresAddUp(p, after, calls[1..]);
      }
    }
  }

  /**
   A success that is let through forgets all failures before it: the failures after it are all let
   through, and exactly the threshold-th of them opens the breaker.
   */
  lemma SuccessStartsOver(p: Settings, b: Breaker, c: Call, calls: seq<Call>)
    requires c.outcome.Succeeds? && !Perform(p, b, c).1.Refused?
    requires AllFail(calls) && |calls| <= Threshold(p)
    ensures var (after, r) := Perform(p, b, c);
            && r == Returned && after.state.Closed?
            && Failed(p, after, calls) == |calls|
            && (AfterAll(p, after, calls).state.Open? <==> |calls| == Threshold(p))
  {
    FailuresAddUp(p, Perform(p, b, c).0, calls);
  }
}
