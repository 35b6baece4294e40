/** Fuzzy campaign detection, decision_engine/campaign_clustering.py. */
module CampaignClustering {
  import opened Text
  import opened Bits
  import opened RecentLog

  const WIDTH: nat := 64

  /** A 64-bit feature hash. */
  type Hash = h: nat | h < Shl1(WIDTH)

  // ---------- SimHash ----------

  /** The tokens themselves and every pair of neighbours. */
  function Features(tokens: seq<string>): seq<string> {
    var pairs := if |tokens| > 0 then |tokens| - 1 else 0;
    tokens + seq(pairs, i requires 0 <= i < pairs => tokens[i] + "_" + tokens[i + 1])
  }

  /** One more token adds itself and its pair with the token before it. */
  lemma FeaturesOfOneMore(tokens: seq<string>, token: string)
    ensures multiset(Features(tokens + [token])) == multiset(Features(tokens)) + multiset{token}
              + if tokens == [] then multiset{} else multiset{tokens[|tokens| - 1] + "_" + token}
  {
    var n, more := |tokens|, tokens + [token];
    if n == 0 {
      assert Features(more) == [token] && Features(tokens) == [];
    } else {
      var pairs, last := Features(tokens)[n..], tokens[n - 1] + "_" + token;
      assert Features(tokens) == tokens + pairs;
      assert Features(more) == tokens + [token] + (pairs + [last]);
    }
  }

  function Hashes(features: seq<string>, md5: string -> Hash): seq<Hash> {
    seq(|features|, i requires 0 <= i < |features| => md5(features[i]))
  }

  /** How many of the hashes have bit i. */
  function Votes(hashes: seq<Hash>, i: nat): nat {
    if hashes == [] then 0 else Votes(hashes[..|hashes| - 1], i) + if Bit(hashes[|hashes| - 1], i) then 1 else 0
  }

  /** Bit i of the fingerprint is set exactly when at least half of the features set it. */
  ghost predicate IsSimHash(fingerprint: nat, hashes: seq<Hash>) {
    && fingerprint < Shl1(WIDTH)
    && forall i: nat :: i < WIDTH ==> (Bit(fingerprint, i) <==> 2 * Votes(hashes, i) >= |hashes|)
  }

  /** The tally that each feature raises or lowers, bit by bit. */
  method TallyVotes(hashes: seq<Hash>) returns (v: array<int>)
    ensures fresh(v) && v.Length == WIDTH
    ensures forall i: nat :: i < WIDTH ==> v[i] == 2 * Votes(hashes, i) - |hashes|
  {
    v := new int[WIDTH](_ => 0);
    for k := 0 to |hashes|
      invariant forall i: nat :: i < WIDTH ==> v[i] == 2 * Votes(hashes[..k], i) - k
    {
      assert hashes[..k + 1][..k] == hashes[..k];
      CountVote(v, hashes[k]);
    }
    assert hashes[..|hashes|] == hashes;
  }

  /** The inner loop: one hash votes for or against every bit. */
  method CountVote(v: array<int>, h: Hash)
    requires v.Length == WIDTH
    modifies v
    ensures forall i: nat :: i < WIDTH ==> v[i] == old(v[i]) + if Bit(h, i) then 1 else -1
  {
    for i := 0 to WIDTH
      invariant forall j: nat :: j < i ==> v[j] == old(v[j]) + if Bit(h, j) then 1 else -1
      invariant forall j: nat :: i <= j < WIDTH ==> v[j] == old(v[j])
    {
      var bit := Shr(h, i) % 2;
      if bit == 1 {
        v[i] := v[i] + 1;
      } else {
        v[i] := v[i] - 1;
      }
    }
  }

  method ComputeSimhash(tokens: seq<string>, md5: string -> Hash) returns (fingerprint: nat)
    ensures tokens == [] ==> fingerprint == 0
    ensures tokens != [] ==> IsSimHash(fingerprint, Hashes(Features(tokens), md5))
  {
    if tokens == [] {
      return 0;
    }
    var hashes := Hashes(Features(tokens), md5);
    var v := TallyVotes(hashes);
    fingerprint := 0;
    forall i: nat
      ensures !Bit(0, i)
    {
      ZeroHasNoBit(i);
    }
    for i := 0 to WIDTH
      invariant fingerprint < Shl1(i)
      invariant forall j: nat :: Bit(fingerprint, j) <==> j < i && v[j] >= 0
      invariant forall j: nat :: j < WIDTH ==> v[j] == 2 * Votes(hashes, j) - |hashes|
    {
      if v[i] >= 0 {
        SetBit(fingerprint, i);
        fingerprint := Or(fingerprint, Shl1(i));
      }
    }
  }

  lemma SetBit(x: nat, i: nat)
    requires x < Shl1(i)
    ensures Or(x, Shl1(i)) < Shl1(i + 1)
    ensures forall j: nat :: Bit(Or(x, Shl1(i)), j) <==> Bit(x, j) || j == i
  {
    OrNewBit(x, i);
    forall j: nat
      ensures Bit(Or(x, Shl1(i)), j) <==> Bit(x, j) || j == i
    {
      BitOfOr(x, Shl1(i), j);
      BitOfShl1(i, j);
    }
  }

  lemma {:induction false} VotesWithout(hashes: seq<Hash>, k: nat, i: nat)
    requires k < |hashes|
    ensures Votes(hashes, i) == Votes(hashes[..k] + hashes[k + 1..], i) + if Bit(hashes[k], i) then 1 else 0
  {
    var last := |hashes| - 1;
    if k == last {
      assert hashes[..k] + hashes[k + 1..] == hashes[..last];
    } else {
      var rest := hashes[..k] + hashes[k + 1..];
      assert rest[..|rest| - 1] == hashes[..last][..k] + hashes[..last][k + 1..];
      VotesWithout(hashes[..last], k, i);
    }
  }

  lemma MultisetWithout(s: seq<Hash>, k: nat)
    requires k < |s|
    ensures multiset(s[..k] + s[k + 1..]) == multiset(s) - multiset{s[k]}
  {
    assert s == s[..k] + [s[k]] + s[k + 1..];
  }

  lemma {:induction false} VotesOfMultiset(a: seq<Hash>, b: seq<Hash>, i: nat)
    requires multiset(a) == multiset(b)
    ensures Votes(a, i) == Votes(b, i) && |a| == |b|
    decreases |a|
  {
    assert |multiset(a)| == |a| && |multiset(b)| == |b|;
    if a != [] {
      var last := |a| - 1;
      assert a[last] in multiset(a);
      var k :| 0 <= k < |b| && b[k] == a[last];
      MultisetWithout(a, last);
      MultisetWithout(b, k);
      assert a[..last] + a[last + 1..] == a[..last];
      VotesOfMultiset(a[..last], b[..k] + b[k + 1..], i);
      VotesWithout(b, k, i);
    }
  }

  /** The fingerprint is determined by the multiset of feature hashes, not by their order. */
  lemma SimHashIgnoresOrder(f: nat, a: seq<Hash>, g: nat, b: seq<Hash>)
    requires multiset(a) == multiset(b) && IsSimHash(f, a) && IsSimHash(g, b)
    ensures f == g
  {
    forall i: nat | i < WIDTH
      ensures Bit(f, i) <==> Bit(g, i)
    {
      VotesOfMultiset(a, b, i);
    }
    BitsDetermine(f, g, WIDTH);
  }

  // ---------- The engine ----------

  datatype Entry = Entry(cluster: string, fingerprint: nat, time: real)

  datatype Settings = Settings(windowSeconds: int, maxDistance: int, campaignThreshold: int, scoreBoost: int)

  datatype ClusterResult = ClusterResult(isCampaign: bool, clusterId: string, clusterSize: nat, boost: int)

  const NO_CLUSTER := ClusterResult(false, "", 1, 0)

  function TimeOf(): Entry -> real {
    (e: Entry) => e.time
  }

  function Window(s: Settings, log: seq<Entry>, now: real): seq<Entry> {
    Recent(log, TimeOf(), now, s.windowSeconds as real)
  }

  predicate Similar(s: Settings, e: Entry, fingerprint: nat) {
    Hamming(fingerprint, e.fingerprint) <= s.maxDistance
  }

  function CountSimilar(s: Settings, entries: seq<Entry>, fingerprint: nat): nat {
    if entries == [] then 0
    else
      var last := entries[|entries| - 1];
      CountSimilar(s, entries[..|entries| - 1], fingerprint) + if Similar(s, last, fingerprint) then 1 else 0
  }

  /** The cluster of the latest similar entry, or "". */
  function LastCluster(s: Settings, entries: seq<Entry>, fingerprint: nat): string {
    if entries == [] then ""
    else if Similar(s, entries[|entries| - 1], fingerprint) then entries[|entries| - 1].cluster
    else LastCluster(s, entries[..|entries| - 1], fingerprint)
  }

  function ClusterId(s: Settings, window: seq<Entry>, fingerprint: nat, fresh_: string): string {
    var last := LastCluster(s, window, fingerprint);
    if last == "" then fresh_ else last
  }

  /** `log` is everything ever registered; `entries` is what the code keeps of it. */
  class CampaignClusterEngine {
    const settings: Settings
    var entries: seq<Entry>
    ghost var log: seq<Entry>
    ghost var lastUse: Option<real>

    /** The kept entries agree with the full history for every reader from the last use on. */
    ghost predicate Valid()
      reads this
    {
      forall now: real :: (lastUse.Some? ==> lastUse.value <= now)
        ==> Window(settings, entries, now) == Window(settings, log, now)
    }

    constructor (settings: Settings)
      ensures Valid() && this.settings == settings && log == [] && lastUse == None
    {
      this.settings := settings;
      entries, log, lastUse := [], [], None;
    }

    /** `fresh_` is the id that a new cluster would get at this moment. */
    method EvaluateAndRegister(fingerprint: nat, now: real, fresh_: string) returns (r: ClusterResult)
      requires Valid() && (lastUse.Some? ==> lastUse.value <= now)
      modifies this
      ensures Valid() && lastUse == Some(now)
      ensures fingerprint == 0 ==> r == NO_CLUSTER && log == old(log)
      ensures fingerprint != 0 ==>
              var window := Window(settings, old(log), now);
              && r.clusterSize == 1 + CountSimilar(settings, window, fingerprint)
              && r.clusterId == ClusterId(settings, window, fingerprint, fresh_)
              && r.isCampaign == (r.clusterSize >= settings.campaignThreshold)
              && r.boost == (if r.isCampaign then settings.scoreBoost else 0)
              && log == old(log) + [Entry(r.clusterId, fingerprint, now)]
      ensures entries == Window(settings, old(log), now) + if fingerprint == 0 then [] else log[|log| - 1..]
    {
      entries := Recent(entries, TimeOf(), now, settings.windowSeconds as real);
      assert entries == Window(settings, log, now);
      ghost var window := entries;
      lastUse := Some(now);
      if fingerprint == 0 {
        PruneKeepsAgreement(settings, log, now);
        return NO_CLUSTER;
      }
      var matched := "";
      var count := 1;
      for i := 0 to |entries|
        invariant entries == window && log == old(log) && lastUse == Some(now)
        invariant count == 1 + CountSimilar(settings, entries[..i], fingerprint)
        invariant matched == LastCluster(settings, entries[..i], fingerprint)
      {
        assert entries[..i + 1][..i] == entries[..i];
        if Hamming(fingerprint, entries[i].fingerprint) <= settings.maxDistance {
          matched := entries[i].cluster;
          count := count + 1;
        }
      }
      assert entries[..|entries|] == entries;
      if matched == "" {
        matched := fresh_;
      }
      RegisterKeepsAgreement(settings, log, now, Entry(matched, fingerprint, now));
      entries := entries + [Entry(matched, fingerprint, now)];
      log := log + [Entry(matched, fingerprint, now)];
      if count >= settings.campaignThreshold {
        return ClusterResult(true, matched, count, settings.scoreBoost);
      }
      return ClusterResult(false, matched, count, 0);
    }
  }

  lemma PruneKeepsAgreement(s: Settings, log: seq<Entry>, now: real)
    ensures forall later: real :: now <= later ==> Window(s, Window(s, log, now), later) == Window(s, log, later)
  {
    forall later: real | now <= later
      ensures Window(s, Window(s, log, now), later) == Window(s, log, later)
    {
      CutEarly(log, TimeOf(), now, later, s.windowSeconds as real);
    }
  }

  lemma RegisterKeepsAgreement(s: Settings, log: seq<Entry>, now: real, e: Entry)
    ensures forall later: real :: now <= later ==>
              Window(s, Window(s, log, now) + [e], later) == Window(s, log + [e], later)
  {
    forall later: real | now <= later
      ensures Window(s, Window(s, log, now) + [e], later) == Window(s, log + [e], later)
    {
      CutEarly(log, TimeOf(), now, later, s.windowSeconds as real);
      RecentOfAppend(log, e, TimeOf(), later, s.windowSeconds as real);
      RecentOfAppend(Window(s, log, now), e, TimeOf(), later, s.windowSeconds as real);
    }
  }

  /** The entries of the window within the distance bound, by position. */
  ghost function Near(s: Settings, entries: seq<Entry>, fingerprint: nat): set<nat> {
    set k: nat | k < |entries| && Hamming(fingerprint, entries[k].fingerprint) <= s.maxDistance
  }

  lemma NearOneMore(s: Settings, front: seq<Entry>, last: Entry, fingerprint: nat)
    ensures Near(s, front + [last], fingerprint) ==
            Near(s, front, fingerprint) + if Similar(s, last, fingerprint) then {|front|} else {}
  {
  }

  /** The count is the number of near entries. */
  lemma {:induction false} NearEntriesCount(s: Settings, entries: seq<Entry>, fingerprint: nat)
    ensures CountSimilar(s, entries, fingerprint) == |Near(s, entries, fingerprint)|
  {
    if entries != [] {
      var last := |entries| - 1;
      NearEntriesCount(s, entries[..last], fingerprint);
      NearOneMore(s, entries[..last], entries[last], fingerprint);
      assert entries == entries[..last] + [entries[last]];
    }
  }

  /** The cluster is that of the last near entry. */
  lemma {:induction false} LastNearEntryNames(s: Settings, entries: seq<Entry>, fingerprint: nat, k: nat)
    requires k in Near(s, entries, fingerprint) && forall j :: j in Near(s, entries, fingerprint) ==> j <= k
    ensures LastCluster(s, entries, fingerprint) == entries[k].cluster
  {
    var last := |entries| - 1;
    if k < last {
      assert last !in Near(s, entries, fingerprint);
      assert forall j :: j in Near(s, entries[..last], fingerprint) ==> j in Near(s, entries, fingerprint);
      LastNearEntryNames(s, entries[..last], fingerprint, k);
    }
  }

  /** Fingerprints have 64 bits, the highest of them included. */
  lemma FingerprintHas64Bits(fingerprint: nat, hashes: seq<Hash>)
    requires IsSimHash(fingerprint, hashes)
    ensures fingerprint < 0x1_0000_0000_0000_0000
    ensures Bit(fingerprint, 63) <==> 2 * Votes(hashes, 63) >= |hashes|
  {
    WidthOf64();
  }

  lemma WidthOf64()
    ensures Shl1(WIDTH) == 0x1_0000_0000_0000_0000 && WIDTH > 63
  {
    assert Shl1(8) == 256;
    Doubled(8, 256);
    Doubled(16, 0x1_0000);
    Doubled(32, 0x1_0000_0000);
  }

  lemma Doubled(i: nat, x: nat)
    requires Shl1(i) == x
    ensures Shl1(i + i) == x * x
  {
    Shl1Adds(i, i);
  }

  lemma {:induction false} Shl1Adds(i: nat, j: nat)
    ensures Shl1(i + j) == Shl1(i) * Shl1(j)
  {
    if i > 0 {
      Shl1Adds(i - 1, j);
    }
  }
}
