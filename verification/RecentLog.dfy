/** A log of timed records that is cut down to a sliding window every time it is used. */
module RecentLog {

  /** The records at most `window` old at time `now`, in order. */
  function Recent<T>(log: seq<T>, time: T -> real, now: real, window: real): seq<T> {
    if log == [] then []
    else
      var last := log[|log| - 1];
      Recent(log[..|log| - 1], time, now, window) + if now - time(last) <= window then [last] else []
  }

  /** A record that has left the window does not come back: cutting early loses nothing later. */
  lemma {:induction false} CutEarly<T>(log: seq<T>, time: T -> real, now: real, later: real, window: real)
    requires now <= later
    ensures Recent(Recent(log, time, now, window), time, later, window) == Recent(log, time, later, window)
  {
    if log != [] {
      var front, last := log[..|log| - 1], log[|log| - 1];
      CutEarly(front, time, now, later, window);
      var kept := Recent(front, time, now, window);
      assert (kept + [last])[..|kept|] == kept;
      assert Recent(log, time, now, window) == kept || Recent(log, time, now, window) == kept + [last];
    }
  }

  lemma RecentOfAppend<T>(log: seq<T>, x: T, time: T -> real, now: real, window: real)
    ensures Recent(log + [x], time, now, window) ==
            Recent(log, time, now, window) + if now - time(x) <= window then [x] else []
  {
    assert (log + [x])[..|log|] == log;
  }

  /** The window is exactly the records that are recent, each as often as in the log. */
  lemma {:induction false} RecentIsExact<T>(log: seq<T>, time: T -> real, now: real, window: real, x: T)
    ensures multiset(Recent(log, time, now, window))[x] == if now - time(x) <= window then multiset(log)[x] else 0
  {
    if log != [] {
      var front, last := log[..|log| - 1], log[|log| - 1];
      RecentIsExact(front, time, now, window, x);
      assert log == front + [last];
      OneMore(front, last, x);
      OneMore(Recent(front, time, now, window), last, x);
    }
  }

  lemma OneMore<T>(front: seq<T>, last: T, x: T)
    ensures multiset(front + [last])[x] == multiset(front)[x] + if last == x then 1 else 0
  {
  }
}
