/** The in-memory key-value store with lazy expiry, storage/memory.py. */
module TimedStore {
  import opened Text
  import opened Decimal

  datatype Entry = Entry(value: string, expiry: Option<real>)

  predicate Unexpired(e: Entry, now: real) {
    e.expiry.Some? ==> now < e.expiry.value
  }

  /** A missing ttl and a ttl of zero both mean that the entry never expires. */
  function Expiry(now: real, ttl: Option<int>): Option<real> {
    if ttl.Some? && ttl.value != 0 then Some(now + ttl.value as real) else None
  }

  datatype Op =
    | Get(key: string)
    | Set(key: string, value: string, ttl: Option<int>)
    | SetIfNotExists(key: string, value: string, ttl: Option<int>)
    | Incr(key: string, ttl: Option<int>)
    | Delete(key: string)

  datatype Answer = Value(found: Option<string>) | Flag(b: bool) | Count(n: int) | Done | ValueError

  // ---------- The plain timed map ----------

  /** The entry a reader at time `now` can see. */
  function Seen(m: map<string, Entry>, key: string, now: real): Option<Entry> {
    if key in m && Unexpired(m[key], now) then Some(m[key]) else None
  }

  /** A map from keys to timed entries from which nothing is ever removed for being old. */
  function Plain(m: map<string, Entry>, op: Op, now: real): (map<string, Entry>, Answer) {
    var seen := Seen(m, op.key, now);
    match op
    case Get(k) => (m, Value(if seen.Some? then Some(seen.value.value) else None))
    case Set(k, v, ttl) => (m[k := Entry(v, Expiry(now, ttl))], Done)
    case SetIfNotExists(k, v, ttl) =>
      if seen.Some? then (m, Flag(false)) else (m[k := Entry(v, Expiry(now, ttl))], Flag(true))
    case Incr(k, ttl) =>
      if seen.None? then (m[k := Entry("1", Expiry(now, ttl))], Count(1))
      else
        var n := ParseInt(seen.value.value);
        if n.None? then (m, ValueError)
        else (m[k := Entry(IntText(n.value + 1), seen.value.expiry)], Count(n.value + 1))
    case Delete(k) => (m - {k}, Done)
  }

  // ---------- The store ----------

  /** The effect of the liveness test on the dictionary: an expired entry is dropped. */
  function Dropped(m: map<string, Entry>, key: string, now: real): map<string, Entry> {
    if key in m && !Unexpired(m[key], now) then m - {key} else m
  }

  class InMemoryStore {
    var data: map<string, Entry>

    constructor ()
      ensures data == map[]
    {
      data := map[];
    }

    method IsLive(key: string, now: real) returns (live: bool)
      modifies this
      ensures live == Seen(old(data), key, now).Some?
      ensures data == Dropped(old(data), key, now)
    {
      if key !in data {
        return false;
      }
      if !Unexpired(data[key], now) {
        data := data - {key};
        return false;
      }
      return true;
    }

    method Get(key: string, now: real) returns (value: Option<string>)
      modifies this
      ensures (data, Value(value)) == Lazy(old(data), Op.Get(key), now)
    {
      var live := IsLive(key, now);
      if !live {
        return None;
      }
      return Some(data[key].value);
    }

    method Set(key: string, value: string, ttl: Option<int>, now: real)
      modifies this
      ensures data == Lazy(old(data), Op.Set(key, value, ttl), now).0
    {
      data := data[key := Entry(value, Expiry(now, ttl))];
    }

    method SetIfNotExists(key: string, value: string, ttl: Option<int>, now: real) returns (wasSet: bool)
      modifies this
      ensures (data, Flag(wasSet)) == Lazy(old(data), Op.SetIfNotExists(key, value, ttl), now)
    {
      var live := IsLive(key, now);
      if live {
        return false;
      }
      data := data[key := Entry(value, Expiry(now, ttl))];
      return true;
    }

    /** None stands for the ValueError that a live value which is no integer raises. */
    method Incr(key: string, ttl: Option<int>, now: real) returns (count: Option<int>)
      modifies this
      ensures (data, if count.Some? then Count(count.value) else ValueError) == Lazy(old(data), Op.Incr(key, ttl), now)
    {
      var live := IsLive(key, now);
      if live {
        var current := ParseInt(data[key].value);
        if current.None? {
          return None;
        }
        data := data[key := Entry(IntText(current.value + 1), data[key].expiry)];
        return Some(current.value + 1);
      }
      data := data[key := Entry("1", Expiry(now, ttl))];
      return Some(1);
    }

    method Delete(key: string)
      modifies this
      ensures data == old(data) - {key}
    {
      data := data - {key};
    }
  }

  /** One operation of the store: what the liveness test drops, then the plain operation. */
  function Lazy(m: map<string, Entry>, op: Op, now: real): (map<string, Entry>, Answer) {
    if op.Set? || op.Delete? then Plain(m, op, now) else Plain(Dropped(m, op.key, now), op, now)
  }

  /** An operation on one key leaves every other key as it was. */
  lemma OtherKeysUntouched(m: map<string, Entry>, op: Op, now: real, key: string)
    requires op.key != key
    ensures var next := Lazy(m, op, now).0; (key in next <==> key in m) && (key in m ==> next[key] == m[key])
  {
  }

  // ---------- Refinement ----------

  /** No reader at `now` or later can tell the two maps apart. */
  ghost predicate SameFrom(a: map<string, Entry>, b: map<string, Entry>, now: real) {
    forall k :: Seen(a, k, now) == Seen(b, k, now)
  }

  lemma SameLater(a: map<string, Entry>, b: map<string, Entry>, now: real, later: real)
    requires SameFrom(a, b, now) && now <= later
    ensures SameFrom(a, b, later)
  {
    forall k
      ensures Seen(a, k, later) == Seen(b, k, later)
    {
      assert Seen(a, k, now) == Seen(b, k, now);
    }
  }

  lemma StepRefines(lazy: map<string, Entry>, plain: map<string, Entry>, op: Op, now: real)
    requires SameFrom(lazy, plain, now)
    ensures Lazy(lazy, op, now).1 == Plain(plain, op, now).1
    ensures SameFrom(Lazy(lazy, op, now).0, Plain(plain, op, now).0, now)
  {
    assert Seen(lazy, op.key, now) == Seen(plain, op.key, now);
    var a, b := Lazy(lazy, op, now).0, Plain(plain, op, now).0;
    forall k
      ensures Seen(a, k, now) == Seen(b, k, now)
    {
      assert Seen(lazy, k, now) == Seen(plain, k, now);
    }
  }

  datatype Timed = Timed(now: real, op: Op)

  ghost predicate Nondecreasing(run: seq<Timed>, from_: real) {
    forall i :: 0 <= i < |run| ==> from_ <= run[i].now && (i > 0 ==> run[i - 1].now <= run[i].now)
  }

  function LazyRun(m: map<string, Entry>, run: seq<Timed>): seq<Answer>
    decreases |run|
  {
    if run == [] then []
    else var (next, answer) := Lazy(m, run[0].op, run[0].now); [answer] + LazyRun(next, run[1..])
  }

  function PlainRun(m: map<string, Entry>, run: seq<Timed>): seq<Answer>
    decreases |run|
  {
    if run == [] then []
    else var (next, answer) := Plain(m, run[0].op, run[0].now); [answer] + PlainRun(next, run[1..])
  }

  /** On a nondecreasing clock the store answers every run as the plain timed map does. */
  lemma {:induction false} StoreRefinesPlainMap(lazy: map<string, Entry>, plain: map<string, Entry>, run: seq<Timed>,
                                                start: real)
    requires SameFrom(lazy, plain, start) && Nondecreasing(run, start)
    ensures LazyRun(lazy, run) == PlainRun(plain, run)
    decreases |run|
  {
    if run != [] {
      var now := run[0].now;
      SameLater(lazy, plain, start, now);
      StepRefines(lazy, plain, run[0].op, now);
      assert forall i :: 0 <= i < |run| - 1 ==> run[1..][i] == run[i + 1];
      LaterThanFirst(run);
      StoreRefinesPlainMap(Lazy(lazy, run[0].op, now).0, Plain(plain, run[0].op, now).0, run[1..], now);
    }
  }

  lemma {:induction false} LaterThanFirst(run: seq<Timed>)
    requires run != [] && forall i :: 0 < i < |run| ==> run[i - 1].now <= run[i].now
    ensures forall i :: 0 <= i < |run| ==> run[0].now <= run[i].now
  {
    var i := 1;
    while i < |run|
      invariant 1 <= i <= |run|
      invariant forall j :: 0 <= j < i ==> run[0].now <= run[j].now
    {
      assert run[i - 1].now <= run[i].now;
      i := i + 1;
    }
  }

  /** A value is read until its ttl has passed, for ever without one, and by readers of its own key alone. */
  lemma SetIsReadUntil(m: map<string, Entry>, key: string, value: string, ttl: Option<int>, now: real, later: real,
                       other: string)
    requires now <= later
    ensures var next := Lazy(m, Set(key, value, ttl), now).0;
            && Lazy(next, Get(key), later).1 ==
               Value(if ttl == None || ttl == Some(0) || later < now + ttl.value as real then Some(value) else None)
            && (other != key ==> Lazy(next, Get(other), later).1 == Lazy(m, Get(other), later).1)
  {
  }

  /** Of two claims of one key, the second succeeds, and replaces the first, exactly when the first has expired. */
  lemma FirstClaimWins(m: map<string, Entry>, key: string, first: string, second: string, ttl: Option<int>, now: real,
                       later: real)
    requires now <= later && Lazy(m, SetIfNotExists(key, first, ttl), now).1 == Flag(true)
    ensures var held := ttl == None || ttl == Some(0) || later < now + ttl.value as real;
            var (next, answer) := Lazy(Lazy(m, SetIfNotExists(key, first, ttl), now).0,
                                       SetIfNotExists(key, second, None), later);
            answer == Flag(!held) && Lazy(next, Get(key), later).1 == Value(Some(if held then first else second))
  {
  }

  /** A deleted key is free; the n-th increment of a key that was free answers n. */
  lemma {:induction false} IncrementsCount(m: map<string, Entry>, key: string, n: nat, now: real)
    ensures Lazy(Lazy(m, Delete(key), now).0, Get(key), now).1 == Value(None)
    ensures n > 0 ==>
            Lazy(Incremented(Lazy(m, Delete(key), now).0, key, n - 1, now), Incr(key, None), now).1 == Count(n)
    ensures n > 0 ==>
            Seen(Incremented(Lazy(m, Delete(key), now).0, key, n, now), key, now) == Some(Entry(IntText(n), None))
  {
    if n > 1 {
      IncrementsCount(m, key, n - 1, now);
      IntRoundTrip(n - 1);
    }
  }

  function Incremented(m: map<string, Entry>, key: string, n: nat, now: real): map<string, Entry> {
    if n == 0 then m else Lazy(Incremented(m, key, n - 1, now), Incr(key, None), now).0
  }
}
