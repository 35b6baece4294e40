/** The per-sender burst check of delivery/dlp.py. */
module Dlp {
  import opened Text
  import opened RecentLog

  const BURST_WINDOW: real := 600.0

  datatype ScanResult = ScanResult(isBlocked: bool, scoreDelta: int, anomalousVolume: bool)

  /** One outbound mail, as the full history keeps it. */
  datatype Mail = Mail(sender: string, time: real)

  function Same(): real -> real {
    (t: real) => t
  }

  /** The times of all mails of one sender. */
  function TimesOf(history: seq<Mail>, sender: string): seq<real> {
    if history == [] then []
    else
      var last := history[|history| - 1];
      TimesOf(history[..|history| - 1], sender) + if last.sender == sender then [last.time] else []
  }

  /** `activity.get(sender, [])` */
  function KeptOf(activity: map<string, seq<real>>, sender: string): seq<real> {
    if sender in activity then activity[sender] else []
  }

  class DLPScanner {
    const maxBurst: int
    var senderActivity: map<string, seq<real>>
    ghost var history: seq<Mail>
    ghost var lastUse: Option<real>

    /** From the last use on, what is kept of each sender agrees with the sender's full history. */
    ghost predicate Valid()
      reads this
    {
      forall sender, now: real :: (lastUse.Some? ==> lastUse.value <= now) ==>
        Recent(KeptOf(senderActivity, sender), Same(), now, BURST_WINDOW)
        == Recent(TimesOf(history, sender), Same(), now, BURST_WINDOW)
    }

    constructor (maxBurst: int)
      ensures Valid() && this.maxBurst == maxBurst && history == [] && lastUse == None
    {
      this.maxBurst := maxBurst;
      senderActivity, history, lastUse := map[], [], None;
    }

    /** `patternScore` is what the content patterns contribute. */
    method InspectOutbound(senderIn: string, patternScore: int, now: real) returns (r: ScanResult)
      requires Valid() && (lastUse.Some? ==> lastUse.value <= now)
      modifies this
      ensures Valid() && lastUse == Some(now) && history == old(history) + [Mail(Lower(senderIn), now)]
      ensures r.anomalousVolume <==>
              1 + |Recent(TimesOf(old(history), Lower(senderIn)), Same(), now, BURST_WINDOW)| > maxBurst
      ensures r.scoreDelta == patternScore + if r.anomalousVolume then 50 else 0
      ensures r.isBlocked <==> r.scoreDelta >= 40 || r.anomalousVolume
    {
      var sender := Lower(senderIn);
      var activity := KeptOf(senderActivity, sender);
      var recent := Recent(activity, Same(), now, BURST_WINDOW);
      assert recent == Recent(TimesOf(history, sender), Same(), now, BURST_WINDOW);
      recent := recent + [now];
      AgreementKept(senderActivity, history, lastUse, sender, now, recent);
      senderActivity := senderActivity[sender := recent];
      history := history + [Mail(sender, now)];
      lastUse := Some(now);
      var scoreDelta, anomalous := patternScore, false;
      if |recent| > maxBurst {
        anomalous := true;
        scoreDelta := scoreDelta + 50;
      }
      return ScanResult(scoreDelta >= 40 || anomalous, scoreDelta, anomalous);
    }
  }

  /** The sender's own times after one more mail. */
  lemma SenderKept(kept: seq<real>, times: seq<real>, now: real, t: real)
    requires now <= t && Recent(kept, Same(), t, BURST_WINDOW) == Recent(times, Same(), t, BURST_WINDOW)
    ensures Recent(Recent(kept, Same(), now, BURST_WINDOW) + [now], Same(), t, BURST_WINDOW) ==
            Recent(times + [now], Same(), t, BURST_WINDOW)
  {
    CutEarly(kept, Same(), now, t, BURST_WINDOW);
    RecentOfAppend(Recent(kept, Same(), now, BURST_WINDOW), now, Same(), t, BURST_WINDOW);
    RecentOfAppend(times, now, Same(), t, BURST_WINDOW);
  }

  lemma TimesOfOneMore(history: seq<Mail>, sender: string, now: real, other: string)
    ensures TimesOf(history + [Mail(sender, now)], other) ==
            TimesOf(history, other) + if other == sender then [now] else []
  {
    assert (history + [Mail(sender, now)])[..|history|] == history;
  }

  /** After one more mail of a sender, the kept times agree with the history again. */
  lemma AgreementKept(activity: map<string, seq<real>>, history: seq<Mail>, lastUse: Option<real>, sender: string,
                      now: real, recent: seq<real>)
    requires lastUse.Some? ==> lastUse.value <= now
    requires forall other, t: real :: (lastUse.Some? ==> lastUse.value <= t) ==>
               Recent(KeptOf(activity, other), Same(), t, BURST_WINDOW) ==
                 Recent(TimesOf(history, other), Same(), t, BURST_WINDOW)
    requires recent == Recent(KeptOf(activity, sender), Same(), now, BURST_WINDOW) + [now]
    ensures forall other, t: real :: now <= t ==>
              Recent(KeptOf(activity[sender := recent], other), Same(), t, BURST_WINDOW)
              == Recent(TimesOf(history + [Mail(sender, now)], other), Same(), t, BURST_WINDOW)
  {
    forall other, t: real | now <= t
      ensures Recent(KeptOf(activity[sender := recent], other), Same(), t, BURST_WINDOW)
           == Recent(TimesOf(history + [Mail(sender, now)], other), Same(), t, BURST_WINDOW)
    {
      TimesOfOneMore(history, sender, now, other);
      assert Recent(KeptOf(activity, other), Same(), t, BURST_WINDOW) ==
        Recent(TimesOf(history, other), Same(), t, BURST_WINDOW);
      if other == sender {
        SenderKept(KeptOf(activity, sender), TimesOf(history, sender), now, t);
        assert KeptOf(activity[sender := recent], other) == recent;
      } else {
        assert KeptOf(activity[sender := recent], other) == KeptOf(activity, other);
        assert TimesOf(history, other) + [] == TimesOf(history, other);
      }
    }
  }

  /** The sender's mails of the last ten minutes, by position. */
  ghost function LastTenMinutes(history: seq<Mail>, sender: string, now: real): set<nat> {
    set k: nat | k < |history| && history[k].sender == sender && now - history[k].time <= 600.0
  }

  lemma OneMoreMail(front: seq<Mail>, last: Mail, sender: string, now: real)
    ensures var more := LastTenMinutes(front + [last], sender, now);
            |more| == |LastTenMinutes(front, sender, now)|
                      + if last.sender == sender && now - last.time <= 600.0 then 1 else 0
  {
    var n, before := |front|, LastTenMinutes(front, sender, now);
    var counts := last.sender == sender && now - last.time <= 600.0;
    assert LastTenMinutes(front + [last], sender, now) == before + if counts then {n} else {};
  }

  /** The burst counts the sender's mails of the last 600 seconds. */
  lemma {:induction false} BurstIsCounted(history: seq<Mail>, sender: string, now: real)
    ensures |Recent(TimesOf(history, sender), Same(), now, BURST_WINDOW)| == |LastTenMinutes(history, sender, now)|
  {
    if history == [] {
      assert LastTenMinutes(history, sender, now) == {};
    } else {
      var front, last := history[..|history| - 1], history[|history| - 1];
      BurstIsCounted(front, sender, now);
      OneMoreMail(front, last, sender, now);
      assert history == front + [last];
      if last.sender == sender {
        RecentOfAppend(TimesOf(front, sender), last.time, Same(), now, BURST_WINDOW);
      } else {
        assert TimesOf(history, sender) == TimesOf(front, sender) + [] == TimesOf(front, sender);
      }
    }
  }
}
