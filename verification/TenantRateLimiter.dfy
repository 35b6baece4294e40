/** The per-minute tenant quota of multi_tenancy/rate_limiter.py. */
module TenantRateLimiter {
  import opened WindowCount

  type Counts = map<(string, int), nat>

  /** `int(now // 60)` */
  function Minute(now: real): int {
    (now / 60.0).Floor
  }

  function Cleaned(counts: Counts, minute: int): Counts {
    map k | k in counts && k.1 >= minute - 2 :: counts[k]
  }

  function CountOf(counts: Counts, tenant: string, minute: int): nat {
    if (tenant, minute) in counts then counts[(tenant, minute)] else 0
  }

  /** The counts after a call, and whether the call is admitted. */
  function Check(counts: Counts, tenant: string, maxPerMinute: int, now: real): (Counts, bool) {
    var live := Cleaned(counts, Minute(now));
    var current := CountOf(live, tenant, Minute(now));
    if current >= maxPerMinute then (live, false)
    else (live[(tenant, Minute(now)) := current + 1], true)
  }

  class TenantLimiter {
    var tenantCounts: Counts

    constructor ()
      ensures tenantCounts == map[]
    {
      tenantCounts := map[];
    }

    method CheckTenantRateLimit(tenant: string, maxPerMinute: int, now: real) returns (admitted: bool)
      modifies this
      ensures (tenantCounts, admitted) == Check(old(tenantCounts), tenant, maxPerMinute, now)
    {
      var minute := (now / 60.0).Floor;
      var keys := tenantCounts.Keys;
      while keys != {}
        invariant keys <= old(tenantCounts).Keys
        invariant tenantCounts ==
                  map k | k in old(tenantCounts) && (k in keys || k.1 >= minute - 2) :: old(tenantCounts)[k]
        decreases keys
      {
        var k :| k in keys;
        keys := keys - {k};
        if k.1 < minute - 2 {
          tenantCounts := tenantCounts - {k};
        }
      }
      assert tenantCounts == Cleaned(old(tenantCounts), minute);
      var key := (tenant, minute);
      var current := if key in tenantCounts then tenantCounts[key] else 0;
      if current >= maxPerMinute {
        return false;
      }
      tenantCounts := tenantCounts[key := current + 1];
      return true;
    }
  }

  // ---------- Whole runs ----------

  datatype Call = Call(tenant: string, maxPerMinute: int, now: real)

  /** The counts, and the calls of one tenant that were admitted. */
  datatype Run = Run(counts: Counts, log: seq<Accept>)

  function WindowOf(now: real): real {
    Minute(now) as real * 60.0
  }

  function Step(r: Run, tenant: string, c: Call): Run {
    var (counts, admitted) := Check(r.counts, c.tenant, c.maxPerMinute, c.now);
    Run(counts, if admitted && c.tenant == tenant then r.log + [Accept(c.now, WindowOf(c.now))] else r.log)
  }

  function RunAll(r: Run, tenant: string, calls: seq<Call>): Run
    decreases |calls|
  {
    if calls == [] then r else RunAll(Step(r, tenant, calls[0]), tenant, calls[1..])
  }

  /** Until its minute is three minutes past, a bucket holds the number of calls admitted in that minute. */
  ghost predicate BucketsTally(r: Run, tenant: string, now: real) {
    forall m: int :: m >= Minute(now) - 2 ==> CountOf(r.counts, tenant, m) == CountStart(r.log, m as real * 60.0)
  }

  ghost predicate Consistent(r: Run, tenant: string, cap: nat, now: real) {
    && Windowed(r.log, 60.0) && Capped(r.log, cap)
    && (forall i :: 0 <= i < |r.log| ==> r.log[i].time <= now && r.log[i].start == WindowOf(r.log[i].time))
    && BucketsTally(r, tenant, now)
  }

  lemma MinuteMonotone(a: real, b: real)
    requires a <= b
    ensures Minute(a) <= Minute(b)
    ensures WindowOf(a) <= a < WindowOf(a) + 60.0
    ensures WindowOf(a) == WindowOf(b) || WindowOf(a) + 60.0 <= WindowOf(b)
  {
    var m, n := Minute(a), Minute(b);
    assert m as real <= a / 60.0 < m as real + 1.0;
    assert n as real <= b / 60.0 < n as real + 1.0;
    assert m <= n;
    if m < n {
      assert m as real + 1.0 <= n as real;
    }
  }

  /** Clean-up never drops a bucket that a later call could still read. */
  lemma CleanupKeepsLiveBuckets(counts: Counts, tenant: string, minute: int, now: real, later: real)
    requires now <= later && minute >= Minute(later) - 2
    ensures CountOf(Cleaned(counts, Minute(now)), tenant, minute) == CountOf(counts, tenant, minute)
  {
    MinuteMonotone(now, later);
  }

  /** A call leaves no count behind that is more than two minutes old. */
  lemma CleanupIsComplete(counts: Counts, tenant: string, quota: int, now: real)
    ensures forall k :: k in Check(counts, tenant, quota, now).0 ==> k.1 >= Minute(now) - 2
  {
  }

  lemma StepKeepsTally(r: Run, tenant: string, c: Call, before: real)
    requires BucketsTally(r, tenant, before) && before <= c.now
    ensures BucketsTally(Step(r, tenant, c), tenant, c.now)
  {
    var next := Step(r, tenant, c);
    MinuteMonotone(before, c.now);
    forall m: int | m >= Minute(c.now) - 2
      ensures CountOf(next.counts, tenant, m) == CountStart(next.log, m as real * 60.0)
    {
      CleanupKeepsLiveBuckets(r.counts, tenant, m, c.now, c.now);
      assert CountOf(r.counts, tenant, m) == CountStart(r.log, m as real * 60.0);
      if next.log != r.log {
        assert next.log[..|r.log|] == r.log;
        assert m as real * 60.0 == WindowOf(c.now) <==> m == Minute(c.now);
      }
    }
  }

  lemma StepKeepsConsistent(r: Run, tenant: string, cap: nat, c: Call, before: real)
    requires Consistent(r, tenant, cap, before) && before <= c.now && c.maxPerMinute <= cap
    ensures Consistent(Step(r, tenant, c), tenant, cap, c.now)
  {
    StepKeepsTally(r, tenant, c, before);
    var next := Step(r, tenant, c);
    if next.log != r.log {
      MinuteMonotone(before, c.now);
      MinuteMonotone(c.now, c.now);
      forall i | 0 <= i < |r.log|
        ensures r.log[i].start == WindowOf(c.now) || r.log[i].start + 60.0 <= WindowOf(c.now)
      {
        MinuteMonotone(r.log[i].time, c.now);
      }
      CleanupKeepsLiveBuckets(r.counts, tenant, Minute(c.now), c.now, c.now);
      assert CountOf(r.counts, tenant, Minute(c.now)) == CountStart(r.log, WindowOf(c.now));
      AddToWindow(r.log, 60.0, cap, Accept(c.now, WindowOf(c.now)));
    }
  }

  ghost predicate Clocked(calls: seq<Call>, start: real, cap: nat) {
    && (calls != [] ==> start <= calls[0].now)
    && (forall i :: 0 < i < |calls| ==> calls[i - 1].now <= calls[i].now)
    && (forall i :: 0 <= i < |calls| ==> calls[i].maxPerMinute <= cap)
  }

  lemma {:induction false} RunIsConsistent(r: Run, tenant: string, cap: nat, calls: seq<Call>, start: real)
    requires Consistent(r, tenant, cap, start) && Clocked(calls, start, cap)
    ensures var log := RunAll(r, tenant, calls).log; Windowed(log, 60.0) && Capped(log, cap)
    decreases |calls|
  {
    if calls != [] {
      StepKeepsConsistent(r, tenant, cap, calls[0], start);
      assert forall i :: 0 <= i < |calls| - 1 ==> calls[1..][i] == calls[i + 1];
      RunIsConsistent(Step(r, tenant, calls[0]), tenant, cap, calls[1..], calls[0].now);
    }
  }

  /** After every run, a call is admitted exactly when fewer than its quota were admitted in its minute. */
  lemma {:induction false} AdmittedIffRoom(r: Run, tenant: string, calls: seq<Call>, start: real, quota: int, now: real)
    requires BucketsTally(r, tenant, start) && (forall i :: 0 <= i < |calls| ==> start <= calls[i].now <= now)
    requires (forall i :: 0 < i < |calls| ==> calls[i - 1].now <= calls[i].now) && start <= now
    ensures var s := RunAll(r, tenant, calls);
            Check(s.counts, tenant, quota, now).1 <==> CountStart(s.log, WindowOf(now)) < quota
    decreases |calls|
  {
    if calls == [] {
      MinuteMonotone(start, now);
      CleanupKeepsLiveBuckets(r.counts, tenant, Minute(now), now, now);
      assert CountOf(r.counts, tenant, Minute(now)) == CountStart(r.log, WindowOf(now));
    } else {
      StepKeepsTally(r, tenant, calls[0], start);
      assert forall i :: 0 <= i < |calls| - 1 ==> calls[1..][i] == calls[i + 1];
      NotEarlier(calls);
      AdmittedIffRoom(Step(r, tenant, calls[0]), tenant, calls[1..], calls[0].now, quota, now);
    }
  }

  lemma {:induction false} NotEarlier(calls: seq<Call>)
    requires calls != [] && forall i :: 0 < i < |calls| ==> calls[i - 1].now <= calls[i].now
    ensures forall i :: 0 <= i < |calls| ==> calls[0].now <= calls[i].now
  {
    if |calls| > 1 {
      var front := calls[..|calls| - 1];
      NotEarlier(front);
      assert forall i :: 0 <= i < |front| ==> front[i] == calls[i];
      assert calls[|calls| - 2].now <= calls[|calls| - 1].now;
    }
  }

  /** A minute begins every sixty seconds and holds the times from its beginning on. */
  lemma MinuteOf(now: real)
    ensures WindowOf(now) <= now < WindowOf(now) + 60.0 && WindowOf(now) == 60.0 * Minute(now) as real
  {
    MinuteMonotone(now, now);
  }

  /**
   On a nondecreasing clock, with quotas of at most `cap`, a tenant is admitted at most `cap` times
   in any clock minute and at most twice as often in any sixty seconds.
   */
  lemma TenantBounds(tenant: string, cap: nat, calls: seq<Call>, start: real, minute: int, lo: real)
    requires Clocked(calls, start, cap)
    ensures var log := RunAll(Run(map[], []), tenant, calls).log;
            CountStart(log, minute as real * 60.0) <= cap && CountIn(log, lo, lo + 60.0) <= 2 * cap
  {
    RunIsConsistent(Run(map[], []), tenant, cap, calls, start);
    TwiceTheCap(RunAll(Run(map[], []), tenant, calls).log, 60.0, cap, lo);
  }
}
