/** The fixed-window rate limiter of security/rate_limit.py, over the store of storage/memory.py. */
module RateLimit {
  import opened Text
  import opened Decimal
  import opened TimedStore
  import opened WindowCount

  datatype Outcome = Allowed | RateLimitExceeded | BadCounter

  function KeyOf(prefix: string, identifier: string): string {
    prefix + ":" + identifier
  }

  class RateLimiter {
    const store: InMemoryStore
    const maxRequests: int
    const windowSeconds: int
    const keyPrefix: string

    constructor (store: InMemoryStore, maxRequests: int, windowSeconds: int, keyPrefix: string)
      ensures this.store == store && this.maxRequests == maxRequests
      ensures this.windowSeconds == windowSeconds && this.keyPrefix == keyPrefix
    {
      this.store, this.maxRequests, this.windowSeconds, this.keyPrefix := store, maxRequests, windowSeconds, keyPrefix;
    }

    /**
     Anything but Allowed is an exception to the caller; BadCounter is the ValueError of a key that holds no
     number.
     */
    method Check(identifier: string, now: real) returns (outcome: Outcome)
      modifies store
      ensures (store.data, outcome) ==
              Attempt(old(store.data), KeyOf(keyPrefix, identifier), maxRequests, windowSeconds, now)
    {
      var current := store.Incr(keyPrefix + ":" + identifier, Some(windowSeconds), now);
      if current.None? {
        return BadCounter;
      }
      if current.value > maxRequests {
        return RateLimitExceeded;
      }
      return Allowed;
    }
  }

  function Attempt(m: map<string, Entry>, key: string, maxRequests: int, window: int, now: real)
    : (map<string, Entry>, Outcome)
  {
    var (next, answer) := Lazy(m, Incr(key, Some(window)), now);
    (next, if !answer.Count? then BadCounter else if answer.n > maxRequests then RateLimitExceeded else Allowed)
  }

  // ---------- Whole runs ----------

  /** A call of the limiter for one key, or any store operation on another key. */
  datatype Event = Call(now: real) | Foreign(now: real, op: Op)

  /** The window that admits a call at `now`: the live counter's, or one that begins with the call. */
  function WindowStart(m: map<string, Entry>, key: string, window: int, now: real): real {
    var seen := Seen(m, key, now);
    if seen.Some? && seen.value.expiry.Some? then seen.value.expiry.value - window as real else now
  }

  datatype Run = Run(store: map<string, Entry>, log: seq<Accept>)

  function Step(r: Run, key: string, maxRequests: int, window: int, e: Event): Run {
    match e
    case Call(now) =>
      var (next, outcome) := Attempt(r.store, key, maxRequests, window, now);
      Run(next, if outcome.Allowed? then r.log + [Accept(now, WindowStart(r.store, key, window, now))] else r.log)
    case Foreign(now, op) => Run(Lazy(r.store, op, now).0, r.log)
  }

  function RunAll(r: Run, key: string, maxRequests: int, window: int, events: seq<Event>): Run
    decreases |events|
  {
    if events == [] then r
    else RunAll(Step(r, key, maxRequests, window, events[0]), key, maxRequests, window, events[1..])
  }

  function Cap(maxRequests: int): nat {
    if maxRequests > 0 then maxRequests else 0
  }

  /** After n calls in the window that began at `start`, no later window has begun. */
  ghost predicate Tallied(log: seq<Accept>, start: real, n: nat, cap: nat, window: real) {
    && (forall i :: 0 <= i < |log| ==> log[i].start == start || log[i].start + window <= start)
    && CountStart(log, start) == if n < cap then n else cap
  }

  ghost predicate IsCounter(text: string, n: nat) {
    text == IntText(n)
  }

  /** The live counter tells how many calls its window has seen, accepted or not. */
  ghost predicate Consistent(r: Run, key: string, maxRequests: int, window: int, now: real) {
    && Windowed(r.log, window as real) && Capped(r.log, Cap(maxRequests))
    && var seen := Seen(r.store, key, now);
       if seen.None? then forall i :: 0 <= i < |r.log| ==> r.log[i].start + window as real <= now
       else
         && seen.value.expiry.Some? && seen.value.expiry.value - window as real <= now
         && exists n: nat :: IsCounter(seen.value.value, n)
                          && Tallied(r.log, seen.value.expiry.value - window as real, n, Cap(maxRequests),
                                     window as real)
  }

  lemma AttemptLive(m: map<string, Entry>, key: string, maxRequests: int, window: int, now: real, n: nat)
    returns (text: string)
    requires Seen(m, key, now).Some? && IsCounter(m[key].value, n)
    ensures IsCounter(text, n + 1)
    ensures Attempt(m, key, maxRequests, window, now) ==
            (m[key := Entry(text, m[key].expiry)], if n + 1 > maxRequests then RateLimitExceeded else Allowed)
  {
    IntRoundTrip(n);
    text := IntText(n + 1);
  }

  lemma AttemptFirst(m: map<string, Entry>, key: string, maxRequests: int, window: int, now: real)
    requires Seen(m, key, now).None? && window > 0
    ensures var (next, outcome) := Attempt(m, key, maxRequests, window, now);
            && Seen(next, key, now) == Some(Entry("1", Some(now + window as real)))
            && outcome == if 1 > maxRequests then RateLimitExceeded else Allowed
  {
  }

  lemma TallyRoom(log: seq<Accept>, start: real, n: nat, cap: nat, window: real, now: real)
    requires Tallied(log, start, n, cap, window) && n < cap
    ensures Tallied(log + [Accept(now, start)], start, n + 1, cap, window)
  {
    assert (log + [Accept(now, start)])[..|log|] == log;
  }

  /** One more call in a window that has room, or has not. */
  lemma TallyOne(log: seq<Accept>, start: real, n: nat, cap: nat, window: real, now: real, next: seq<Accept>)
    requires Windowed(log, window) && Capped(log, cap) && Tallied(log, start, n, cap, window)
    requires start <= now < start + window && next == if n < cap then log + [Accept(now, start)] else log
    ensures Windowed(next, window) && Capped(next, cap) && Tallied(next, start, n + 1, cap, window)
  {
    if n < cap {
      AddToWindow(log, window, cap, Accept(now, start));
      TallyRoom(log, start, n, cap, window, now);
    }
  }

  lemma ConsistentLater(r: Run, key: string, maxRequests: int, window: int, now: real, later: real)
    requires window > 0 && now <= later && Consistent(r, key, maxRequests, window, now)
    ensures Consistent(r, key, maxRequests, window, later)
  {
  }

  lemma ConsistentAt(r: Run, key: string, maxRequests: int, window: int, now: real, text: string, start: real, n: nat)
    requires Seen(r.store, key, now) == Some(Entry(text, Some(start + window as real))) && start <= now
    requires IsCounter(text, n) && Tallied(r.log, start, n, Cap(maxRequests), window as real)
    requires Windowed(r.log, window as real) && Capped(r.log, Cap(maxRequests))
    ensures Consistent(r, key, maxRequests, window, now)
  {
    assert (start + window as real) - window as real == start;
  }

  /** What a call in the live window leaves in the store, and whether it was let through. */
  lemma LiveStep(r: Run, key: string, maxRequests: int, window: int, now: real, n: nat) returns (text: string)
    requires Seen(r.store, key, now).Some? && IsCounter(r.store[key].value, n) && r.store[key].expiry.Some?
    ensures IsCounter(text, n + 1)
    ensures var next := Step(r, key, maxRequests, window, Call(now));
            && Seen(next.store, key, now) == Some(Entry(text, r.store[key].expiry))
            && next.log == if n < Cap(maxRequests)
                           then r.log + [Accept(now, WindowStart(r.store, key, window, now))] else r.log
  {
    text := AttemptLive(r.store, key, maxRequests, window, now, n);
  }

  /** A live counter's window, and how many calls it has seen. */
  lemma LiveWindow(r: Run, key: string, maxRequests: int, window: int, now: real) returns (start: real, n: nat)
    requires window > 0 && Consistent(r, key, maxRequests, window, now) && Seen(r.store, key, now).Some?
    ensures Seen(r.store, key, now) == Some(Entry(r.store[key].value, Some(start + window as real)))
    ensures start <= now < start + window as real && WindowStart(r.store, key, window, now) == start
    ensures IsCounter(r.store[key].value, n) && Tallied(r.log, start, n, Cap(maxRequests), window as real)
  {
    start := r.store[key].expiry.value - window as real;
    n :| IsCounter(r.store[key].value, n) && Tallied(r.log, start, n, Cap(maxRequests), window as real);
  }

  /** The state after one more call of the window that began at `start`. */
  lemma CallKeeps(r: Run, next: Run, key: string, maxRequests: int, window: int, now: real, text: string, start: real,
                  n: nat)
    requires Windowed(r.log, window as real) && Capped(r.log, Cap(maxRequests))
    requires Tallied(r.log, start, n, Cap(maxRequests), window as real) && start <= now < start + window as real
    requires Seen(next.store, key, now) == Some(Entry(text, Some(start + window as real))) && IsCounter(text, n + 1)
    requires next.log == if n < Cap(maxRequests) then r.log + [Accept(now, start)] else r.log
    ensures Consistent(next, key, maxRequests, window, now)
  {
    TallyOne(r.log, start, n, Cap(maxRequests), window as real, now, next.log);
    ConsistentAt(next, key, maxRequests, window, now, text, start, n + 1);
  }

  /** A call in the live window. */
  lemma LiveCall(r: Run, key: string, maxRequests: int, window: int, now: real)
    requires window > 0 && Consistent(r, key, maxRequests, window, now) && Seen(r.store, key, now).Some?
    ensures Consistent(Step(r, key, maxRequests, window, Call(now)), key, maxRequests, window, now)
  {
    var start, n := LiveWindow(r, key, maxRequests, window, now);
    var text := LiveStep(r, key, maxRequests, window, now, n);
    CallKeeps(r, Step(r, key, maxRequests, window, Call(now)), key, maxRequests, window, now, text, start, n);
  }

  /** A call that begins a new window. */
  lemma FirstCall(r: Run, key: string, maxRequests: int, window: int, now: real)
    requires window > 0 && Consistent(r, key, maxRequests, window, now) && Seen(r.store, key, now).None?
    ensures Consistent(Step(r, key, maxRequests, window, Call(now)), key, maxRequests, window, now)
  {
    AttemptFirst(r.store, key, maxRequests, window, now);
    FreshWindow(r.log, window as real, now);
    var next := Step(r, key, maxRequests, window, Call(now));
    assert IsCounter("1", 1);
    CallKeeps(r, next, key, maxRequests, window, now, "1", now, 0);
  }

  lemma ForeignKeeps(r: Run, key: string, maxRequests: int, window: int, now: real, op: Op)
    requires Consistent(r, key, maxRequests, window, now) && op.key != key
    ensures Consistent(Step(r, key, maxRequests, window, Foreign(now, op)), key, maxRequests, window, now)
  {
    OtherKeysUntouched(r.store, op, now, key);
    assert Seen(Step(r, key, maxRequests, window, Foreign(now, op)).store, key, now) == Seen(r.store, key, now);
  }

  ghost predicate Clocked(events: seq<Event>, key: string, start: real) {
    && (forall i :: 0 <= i < |events| ==> start <= events[i].now && (i > 0 ==> events[i - 1].now <= events[i].now))
    && (forall i :: 0 <= i < |events| && events[i].Foreign? ==> events[i].op.key != key)
  }

  lemma {:induction false} RunIsConsistent(r: Run, key: string, maxRequests: int, window: int, events: seq<Event>,
                                           start: real)
    requires window > 0 && Consistent(r, key, maxRequests, window, start) && Clocked(events, key, start)
    ensures var log := RunAll(r, key, maxRequests, window, events).log;
            Windowed(log, window as real) && Capped(log, Cap(maxRequests))
    decreases |events|
  {
    if events != [] {
      StepIsConsistent(r, key, maxRequests, window, events[0], start);
      ClockedTail(events, key, start);
      RunIsConsistent(Step(r, key, maxRequests, window, events[0]), key, maxRequests, window, events[1..],
                      events[0].now);
    }
  }

  lemma {:induction false} ClockedTail(events: seq<Event>, key: string, start: real)
    requires events != [] && Clocked(events, key, start)
    ensures Clocked(events[1..], key, events[0].now)
  {
    if |events| > 1 {
      var last := |events| - 1;
      var front := events[..last];
      assert forall i :: 0 <= i < last ==> front[i] == events[i];
      ClockedTail(front, key, start);
      assert events[last - 1].now <= events[last].now;
      assert last > 1 ==> front[1..][last - 2] == events[last - 1];
      assert forall i :: 0 <= i < last - 1 ==> events[1..][i] == front[1..][i];
    }
  }

  /** In a consistent state a call is let through exactly when its window has room. */
  lemma RoomDecides(r: Run, key: string, maxRequests: int, window: int, now: real)
    requires window > 0 && Consistent(r, key, maxRequests, window, now)
    ensures Attempt(r.store, key, maxRequests, window, now).1 ==
            if CountStart(r.log, WindowStart(r.store, key, window, now)) < maxRequests then Allowed
            else RateLimitExceeded
  {
    if Seen(r.store, key, now).Some? {
      var start, n := LiveWindow(r, key, maxRequests, window, now);
      var text := AttemptLive(r.store, key, maxRequests, window, now, n);
    } else {
      AttemptFirst(r.store, key, maxRequests, window, now);
      FreshWindow(r.log, window as real, now);
    }
  }

  /**
   After every run, the next call is let through exactly when fewer than `maxRequests` calls were
   accepted in its window, which begins with the call if the last one is over.
   */
  lemma {:induction false} AllowedIffRoom(r: Run, key: string, maxRequests: int, window: int, events: seq<Event>,
                                          start: real, now: real)
    requires window > 0 && Consistent(r, key, maxRequests, window, start) && Clocked(events + [Call(now)], key, start)
    ensures var s := RunAll(r, key, maxRequests, window, events);
            Attempt(s.store, key, maxRequests, window, now).1 ==
            if CountStart(s.log, WindowStart(s.store, key, window, now)) < maxRequests then Allowed
            else RateLimitExceeded
    decreases |events|
  {
    if events == [] {
      assert (events + [Call(now)])[0] == Call(now);
      ConsistentLater(r, key, maxRequests, window, start, now);
      RoomDecides(r, key, maxRequests, window, now);
    } else {
      var all := events + [Call(now)];
      assert all[0] == events[0] && all[1..] == events[1..] + [Call(now)];
      ClockedTail(all, key, start);
      StepIsConsistent(r, key, maxRequests, window, events[0], start);
      AllowedIffRoom(Step(r, key, maxRequests, window, events[0]), key, maxRequests, window, events[1..],
                     events[0].now, now);
    }
  }

  lemma StepIsConsistent(r: Run, key: string, maxRequests: int, window: int, e: Event, start: real)
    requires window > 0 && Consistent(r, key, maxRequests, window, start) && start <= e.now
    requires e.Foreign? ==> e.op.key != key
    ensures Consistent(Step(r, key, maxRequests, window, e), key, maxRequests, window, e.now)
  {
    ConsistentLater(r, key, maxRequests, window, start, e.now);
    if e.Foreign? {
      ForeignKeeps(r, key, maxRequests, window, e.now, e.op);
    } else if Seen(r.store, key, e.now).Some? {
      LiveCall(r, key, maxRequests, window, e.now);
    } else {
      FirstCall(r, key, maxRequests, window, e.now);
    }
  }

  /** Every identifier has a counter of its own. */
  lemma IdentifiersAreApart(prefix: string, a: string, b: string)
    ensures KeyOf(prefix, a) == KeyOf(prefix, b) <==> a == b
  {
    assert KeyOf(prefix, a)[|prefix| + 1..] == a && KeyOf(prefix, b)[|prefix| + 1..] == b;
  }

  /**
   Over every run on a nondecreasing clock, each window admits at most `maxRequests` calls of an
   identifier and any interval as long as a window at most twice as many.
   */
  lemma LimiterBounds(m: map<string, Entry>, prefix: string, identifier: string, maxRequests: int, window: int,
                      events: seq<Event>, start: real, lo: real)
    requires window > 0 && Seen(m, KeyOf(prefix, identifier), start).None?
    requires Clocked(events, KeyOf(prefix, identifier), start)
    ensures var log := RunAll(Run(m, []), KeyOf(prefix, identifier), maxRequests, window, events).log;
            && (forall s :: CountStart(log, s) <= Cap(maxRequests))
            && CountIn(log, lo, lo + window as real) <= 2 * Cap(maxRequests)
  {
    var key := KeyOf(prefix, identifier);
    RunIsConsistent(Run(m, []), key, maxRequests, window, events, start);
    TwiceTheCap(RunAll(Run(m, []), key, maxRequests, window, events).log, window as real, Cap(maxRequests), lo);
  }
}
