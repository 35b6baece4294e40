/** Counting accepted requests against fixed windows of one length. */
module WindowCount {

  /** An accepted request: when it came, and when the window that admitted it began. */
  datatype Accept = Accept(time: real, start: real)

  function CountStart(log: seq<Accept>, start: real): nat {
    if log == [] then 0
    else CountStart(log[..|log| - 1], start) + if log[|log| - 1].start == start then 1 else 0
  }

  /** The requests accepted at a time t with lo <= t < hi. */
  function CountIn(log: seq<Accept>, lo: real, hi: real): nat {
    if log == [] then 0
    else CountIn(log[..|log| - 1], lo, hi) + if lo <= log[|log| - 1].time < hi then 1 else 0
  }

  /** Two windows are the same or do not overlap. */
  predicate Apart(a: real, b: real, length: real) {
    a == b || a + length <= b || b + length <= a
  }

  /** Every request falls into its window, and windows do not overlap. */
  ghost predicate Windowed(log: seq<Accept>, length: real) {
    && (forall i :: 0 <= i < |log| ==> log[i].start <= log[i].time < log[i].start + length)
    && (forall i, j :: 0 <= i < |log| && 0 <= j < |log| ==>
                       Apart(log[i].start, log[j].start, length))
  }

  ghost predicate Capped(log: seq<Accept>, cap: nat) {
    forall s :: CountStart(log, s) <= cap
  }

  /** If the requests of an interval come from the windows a and b only, the two windows bound their number. */
  lemma {:induction false} TwoStarts(log: seq<Accept>, lo: real, hi: real, a: real, b: real)
    requires forall i :: 0 <= i < |log| && lo <= log[i].time < hi ==> log[i].start == a || log[i].start == b
    ensures CountIn(log, lo, hi) <= CountStart(log, a) + if a == b then 0 else CountStart(log, b)
  {
    if log != [] {
      TwoStarts(log[..|log| - 1], lo, hi, a, b);
    }
  }

  /** At most twice the cap in any half-open interval as long as a window. */
  lemma TwiceTheCap(log: seq<Accept>, length: real, cap: nat, lo: real)
    requires length > 0.0 && Windowed(log, length) && Capped(log, cap)
    ensures CountIn(log, lo, lo + length) <= 2 * cap
  {
    var hi := lo + length;
    if i :| 0 <= i < |log| && lo <= log[i].time < hi {
      var a := log[i].start;
      if j :| 0 <= j < |log| && lo <= log[j].time < hi && log[j].start != a {
        TwoStarts(log, lo, hi, a, log[j].start);
        assert CountStart(log, a) <= cap && CountStart(log, log[j].start) <= cap;
      } else {
        TwoStarts(log, lo, hi, a, a);
        assert CountStart(log, a) <= cap;
      }
    } else {
      TwoStarts(log, lo, hi, 0.0, 0.0);
      NoneIn(log, lo, hi);
    }
  }

  lemma {:induction false} NoneIn(log: seq<Accept>, lo: real, hi: real)
    requires forall i :: 0 <= i < |log| ==> !(lo <= log[i].time < hi)
    ensures CountIn(log, lo, hi) == 0
  {
    if log != [] {
      NoneIn(log[..|log| - 1], lo, hi);
    }
  }

  lemma CountOneMore(log: seq<Accept>, a: Accept, s: real)
    ensures CountStart(log + [a], s) == CountStart(log, s) + if s == a.start then 1 else 0
  {
    assert (log + [a])[..|log|] == log;
  }

  lemma WindowedOneMore(log: seq<Accept>, length: real, a: Accept)
    requires Windowed(log, length) && a.start <= a.time < a.start + length
    requires forall i :: 0 <= i < |log| ==> Apart(log[i].start, a.start, length)
    ensures Windowed(log + [a], length)
  {
    var longer := log + [a];
    assert longer[|log|] == a && forall i :: 0 <= i < |log| ==> longer[i] == log[i];
    forall i, j | 0 <= i < |longer| && 0 <= j < |longer|
      ensures Apart(longer[i].start, longer[j].start, length)
    {
      if i < |log| {
        assert Apart(log[i].start, a.start, length);
      }
      if j < |log| {
        assert Apart(log[j].start, a.start, length);
      }
    }
  }

  /** Adding one request to the log of a window that has room keeps the bounds. */
  lemma AddToWindow(log: seq<Accept>, length: real, cap: nat, a: Accept)
    requires Windowed(log, length) && Capped(log, cap)
    requires a.start <= a.time < a.start + length && CountStart(log, a.start) < cap
    requires forall i :: 0 <= i < |log| ==> log[i].start == a.start || log[i].start + length <= a.start
    ensures Windowed(log + [a], length) && Capped(log + [a], cap)
  {
    WindowedOneMore(log, length, a);
    forall s
      ensures CountStart(log + [a], s) <= cap
    {
      CountOneMore(log, a, s);
    }
  }

  lemma {:induction false} FreshWindow(log: seq<Accept>, length: real, start: real)
    requires length > 0.0 && forall i :: 0 <= i < |log| ==> log[i].start + length <= start
    ensures CountStart(log, start) == 0
  {
    if log != [] {
      FreshWindow(log[..|log| - 1], length, start);
    }
  }
}
