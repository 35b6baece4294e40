/** The routing decision of decision_engine/scorer.py. */
module Scorer {
  import opened Text
  import opened Numbers

  const DEFAULT_WARN_THRESHOLD := 30
  const DEFAULT_QUARANTINE_THRESHOLD := 70

  datatype Action = Forward | WarnAndStrip | Quarantine {
    function Severity(): nat {
      match this
      case Forward => 0
      case WarnAndStrip => 1
      case Quarantine => 2
    }
  }

  datatype StageScore = StageScore(stage: string, delta: int)

  datatype TenantConfig = TenantConfig(warn: int, quarantine: int, weights: map<string, real>)

  datatype AllowBlock = AllowBlock(isBlocked: bool, isAllowed: bool)

  /** The boost and the threshold apply only when a VIP was detected. */
  datatype Vip = Vip(detected: bool, lowered: Option<int>, boost: int)

  datatype Campaign = Campaign(isCampaign: bool, boost: int)

  datatype Inputs = Inputs(
    stages: seq<StageScore>, warn: int, quarantine: int, allowBlock: Option<AllowBlock>, tenant: Option<TenantConfig>,
    vip: Option<Vip>, campaign: Option<Campaign>, feedback: int)

  datatype Decision = ThresholdError | Decision(total: int, action: Action, stages: seq<StageScore>)

  /** `int(x)`: truncation toward zero. */
  function Trunc(x: real): int {
    if x >= 0.0 then x.Floor else -((-x).Floor)
  }

  function Warn(i: Inputs): int {
    if i.tenant.Some? then i.tenant.value.warn else i.warn
  }

  function BaseQuarantine(i: Inputs): int {
    if i.tenant.Some? then i.tenant.value.quarantine else i.quarantine
  }

  predicate VipDetected(i: Inputs) {
    i.vip.Some? && i.vip.value.detected
  }

  function EffectiveQuarantine(i: Inputs): int {
    if VipDetected(i) && i.vip.value.lowered.Some?
      then Max(Warn(i) + 1, Min(BaseQuarantine(i), i.vip.value.lowered.value))
    else BaseQuarantine(i)
  }

  function Weight(i: Inputs, stage: string): real {
    if i.tenant.Some? && stage in i.tenant.value.weights then i.tenant.value.weights[stage] else 1.0
  }

  /** `int(delta * weight)` */
  function Scaled(delta: int, weight: real): int {
    Trunc(delta as real * weight)
  }

  function Weighted(i: Inputs, s: StageScore): StageScore {
    StageScore(s.stage, Scaled(s.delta, Weight(i, s.stage)))
  }

  function WeightedStages(i: Inputs): (r: seq<StageScore>)
    ensures |r| == |i.stages|
  {
    seq(|i.stages|, k requires 0 <= k < |i.stages| => Weighted(i, i.stages[k]))
  }

  function Sum(stages: seq<StageScore>): int {
    if stages == [] then 0 else Sum(stages[..|stages| - 1]) + stages[|stages| - 1].delta
  }

  function Boosts(i: Inputs): int {
    (if VipDetected(i) then i.vip.value.boost else 0) +
    (if i.campaign.Some? && i.campaign.value.isCampaign then i.campaign.value.boost else 0)
  }

  function Total(i: Inputs): int {
    Sum(WeightedStages(i)) + i.feedback + Boosts(i)
  }

  predicate HasMalware(stages: seq<StageScore>) {
    exists k :: 0 <= k < |stages| && stages[k].delta >= 100
  }

  function ByThreshold(total: int, warn: int, quarantine: int): Action {
    if total >= quarantine then Quarantine else if total >= warn then WarnAndStrip else Forward
  }

  predicate Blocked(i: Inputs) {
    i.allowBlock.Some? && i.allowBlock.value.isBlocked
  }

  /** An allow rule decides, unless a single stage is as good as proof of malware. */
  predicate AllowApplies(i: Inputs) {
    i.allowBlock.Some? && !i.allowBlock.value.isBlocked && i.allowBlock.value.isAllowed
      && !HasMalware(WeightedStages(i))
  }

  function ActionOf(i: Inputs): Action {
    if Blocked(i) then Quarantine
    else if AllowApplies(i) then Forward
    else ByThreshold(Total(i), Warn(i), EffectiveQuarantine(i))
  }

  method WeighStages(i: Inputs) returns (weighted: seq<StageScore>, total: int)
    ensures weighted == WeightedStages(i) && total == Sum(weighted)
  {
    weighted, total := [], 0;
    for k := 0 to |i.stages|
      invariant weighted == WeightedStages(i)[..k] && total == Sum(weighted)
    {
      var scaled := Weighted(i, i.stages[k]);
      assert WeightedStages(i)[..k + 1] == weighted + [scaled];
      assert (weighted + [scaled])[..k] == weighted;
      weighted := weighted + [scaled];
      total := total + scaled.delta;
    }
    assert WeightedStages(i)[..|i.stages|] == WeightedStages(i);
  }

  method FindMalware(stages: seq<StageScore>) returns (found: bool)
    ensures found == HasMalware(stages)
  {
    for k := 0 to |stages|
      invariant forall j :: 0 <= j < k ==> stages[j].delta < 100
    {
      if stages[k].delta >= 100 {
        return true;
      }
    }
    return false;
  }

  method Decide(i: Inputs) returns (d: Decision)
    ensures d.ThresholdError? <==> BaseQuarantine(i) <= Warn(i)
    ensures !d.ThresholdError? ==> d.action == ActionOf(i) && d.stages == WeightedStages(i)
    ensures !d.ThresholdError? ==>
            d.total == if Blocked(i) then Max(Total(i), EffectiveQuarantine(i))
                       else if AllowApplies(i) then 0 else Total(i)
  {
    var effectiveWarn := if i.tenant.Some? then i.tenant.value.warn else i.warn;
    var effectiveQuarantine := if i.tenant.Some? then i.tenant.value.quarantine else i.quarantine;
    if effectiveQuarantine <= effectiveWarn {
      return ThresholdError;
    }
    var vip := i.vip.Some? && i.vip.value.detected;
    if vip && i.vip.value.lowered.Some? {
      effectiveQuarantine := Max(effectiveWarn + 1, Min(effectiveQuarantine, i.vip.value.lowered.value));
    }
    var weighted, total := WeighStages(i);
    if i.feedback != 0 {
      total := total + i.feedback;
    }
    if vip {
      total := total + i.vip.value.boost;
    }
    if i.campaign.Some? && i.campaign.value.isCampaign {
      total := total + i.campaign.value.boost;
    }
    if i.allowBlock.Some? && i.allowBlock.value.isBlocked {
      return Decision(Max(total, effectiveQuarantine), Quarantine, weighted);
    }
    if i.allowBlock.Some? && i.allowBlock.value.isAllowed {
      var malware := FindMalware(weighted);
      if !malware {
        return Decision(0, Forward, weighted);
      }
    }
    var action := if total >= effectiveQuarantine then Quarantine
                  else if total >= effectiveWarn then WarnAndStrip else Forward;
    return Decision(total, action, weighted);
  }

  // ---------- What the action says about the scores ----------

  /** n is x without its fraction. */
  predicate Truncated(x: real, n: int) {
    if x >= 0.0 then n as real <= x < n as real + 1.0 else n as real - 1.0 < x <= n as real
  }

  /** One score for each stage: its delta times the weight that the tenant gives the stage, if any, without fraction. */
  ghost predicate Scores(i: Inputs, scores: seq<int>) {
    |scores| == |i.stages| && forall k :: 0 <= k < |scores| ==> ScoreOf(i, i.stages[k], scores[k])
  }

  predicate ScoreOf(i: Inputs, s: StageScore, score: int) {
    if i.tenant.Some? && s.stage in i.tenant.value.weights
    then Truncated(s.delta as real * i.tenant.value.weights[s.stage], score)
    else score == s.delta
  }

  function Added(scores: seq<int>): int {
    if scores == [] then 0 else scores[0] + Added(scores[1..])
  }

  /** The scores, the feedback, and the boosts of a VIP that was detected and a campaign that was found. */
  function FullScore(i: Inputs, scores: seq<int>): int {
    Added(scores) + i.feedback
    + (match i.vip case Some(Vip(true, _, boost)) => boost case _ => 0)
    + (match i.campaign case Some(Campaign(true, boost)) => boost case _ => 0)
  }

  /** The two thresholds: the tenant's own if there is one; a VIP may lower the upper one, but not to the lower. */
  predicate Thresholds(i: Inputs, w: int, q: int) {
    match i.tenant
    case Some(TenantConfig(warn, quarantine, _)) => w == warn && VipThreshold(i.vip, w, quarantine, q)
    case None => w == i.warn && VipThreshold(i.vip, w, i.quarantine, q)
  }

  predicate VipThreshold(vip: Option<Vip>, w: int, base: int, q: int) {
    match vip
    case Some(Vip(true, Some(lowered), _)) =>
      if lowered <= w then q == w + 1 else if lowered < base then q == lowered else q == base
    case _ => q == base
  }

  lemma ScoreIsDelta(i: Inputs, s: StageScore, score: int)
    requires ScoreOf(i, s, score)
    ensures Weighted(i, s).delta == score
  {
    if i.tenant.Some? && s.stage in i.tenant.value.weights {
      TruncIsExact(s.delta as real * i.tenant.value.weights[s.stage], score);
    } else {
      assert s.delta as real * 1.0 == s.delta as real;
      TruncIsExact(s.delta as real, score);
    }
  }

  lemma TruncIsExact(x: real, n: int)
    requires Truncated(x, n)
    ensures Trunc(x) == n
  {
  }

  lemma {:induction false} AddedIsSum(scores: seq<int>, stages: seq<StageScore>)
    requires |scores| == |stages| && forall k :: 0 <= k < |scores| ==> stages[k].delta == scores[k]
    ensures Added(scores) == Sum(stages)
  {
    if scores != [] {
      var last := |scores| - 1;
      AddedIsSum(scores[..last], stages[..last]);
      AddedAtEnd(scores[..last], scores[last]);
      assert scores == scores[..last] + [scores[last]];
    }
  }

  lemma {:induction false} AddedAtEnd(scores: seq<int>, last: int)
    ensures Added(scores + [last]) == Added(scores) + last
  {
    if scores == [] {
      assert scores + [last] == [last] && [last][1..] == [];
    } else {
      assert (scores + [last])[1..] == scores[1..] + [last];
      AddedAtEnd(scores[1..], last);
    }
  }

  lemma ScoresAreWeighted(i: Inputs, scores: seq<int>)
    requires Scores(i, scores)
    ensures forall k :: 0 <= k < |scores| ==> WeightedStages(i)[k].delta == scores[k]
    ensures FullScore(i, scores) == Total(i)
  {
    forall k | 0 <= k < |scores|
      ensures WeightedStages(i)[k].delta == scores[k]
    {
      ScoreIsDelta(i, i.stages[k], scores[k]);
    }
    AddedIsSum(scores, WeightedStages(i));
  }

  lemma ThresholdsAreEffective(i: Inputs, w: int, q: int)
    requires Thresholds(i, w, q) && BaseQuarantine(i) > Warn(i)
    ensures w == Warn(i) && q == EffectiveQuarantine(i)
  {
  }

  /** Some stage scores 100 or more. */
  predicate Proven(scores: seq<int>) {
    exists k :: 0 <= k < |scores| && scores[k] >= 100
  }

  /**
   A block rule quarantines; an allow rule forwards, unless some stage scores 100.  In all other
   cases the full score decides: quarantined from the upper threshold on, forwarded below the lower.
   */
  lemma ScoreDecides(i: Inputs, scores: seq<int>, w: int, q: int)
    requires Scores(i, scores) && Thresholds(i, w, q) && BaseQuarantine(i) > Warn(i)
    ensures var blocked := i.allowBlock.Some? && i.allowBlock.value.isBlocked;
            var allowed := i.allowBlock.Some? && i.allowBlock.value.isAllowed && !blocked && !Proven(scores);
            && (ActionOf(i) == Quarantine <==> blocked || (!allowed && FullScore(i, scores) >= q))
            && (ActionOf(i) == Forward <==> !blocked && (allowed || FullScore(i, scores) < w))
  {
    ScoresAreWeighted(i, scores);
    ThresholdsAreEffective(i, w, q);
    ProvenIsMalware(WeightedStages(i), scores);
  }

  lemma ProvenIsMalware(stages: seq<StageScore>, scores: seq<int>)
    requires |stages| == |scores| && forall k :: 0 <= k < |scores| ==> stages[k].delta == scores[k]
    ensures HasMalware(stages) <==> Proven(scores)
  {
    assert forall k :: 0 <= k < |scores| && scores[k] >= 100 ==> stages[k].delta >= 100;
  }

  /** Without tenant, rules, VIP, campaign and feedback, the deltas are added up and compared with 30 and 70. */
  lemma DefaultThresholds(stages: seq<StageScore>, deltas: seq<int>)
    requires |deltas| == |stages| && forall k :: 0 <= k < |stages| ==> stages[k].delta == deltas[k]
    ensures var i := Inputs(stages, DEFAULT_WARN_THRESHOLD, DEFAULT_QUARANTINE_THRESHOLD, None, None, None, None, 0);
            && (ActionOf(i) == Quarantine <==> Added(deltas) >= 70)
            && (ActionOf(i) == Forward <==> Added(deltas) < 30)
  {
    ScoreDecides(Inputs(stages, DEFAULT_WARN_THRESHOLD, DEFAULT_QUARANTINE_THRESHOLD, None, None, None, None, 0),
                 deltas, 30, 70);
  }

  // ---------- Monotonicity ----------

  ghost predicate NonnegativeWeights(i: Inputs) {
    forall stage :: Weight(i, stage) >= 0.0
  }

  /** The same stages, none scoring less. */
  ghost predicate StagesRaised(a: seq<StageScore>, b: seq<StageScore>) {
    |a| == |b| && forall k :: 0 <= k < |a| ==> a[k].stage == b[k].stage && a[k].delta <= b[k].delta
  }

  /** The second result is absent from the first input, or at least as strict. */
  ghost predicate VipRaised(i: Inputs, j: Inputs) {
    if VipDetected(i) then
      && VipDetected(j) && i.vip.value.boost <= j.vip.value.boost
      && (i.vip.value.lowered.Some? ==>
            j.vip.value.lowered.Some? && j.vip.value.lowered.value <= i.vip.value.lowered.value)
    else VipDetected(j) ==> j.vip.value.boost >= 0
  }

  predicate CampaignFound(i: Inputs) {
    i.campaign.Some? && i.campaign.value.isCampaign
  }

  ghost predicate CampaignRaised(i: Inputs, j: Inputs) {
    if CampaignFound(i) then CampaignFound(j) && i.campaign.value.boost <= j.campaign.value.boost
    else CampaignFound(j) ==> j.campaign.value.boost >= 0
  }

  /** j gives at least as much cause for alarm as i, under the same policy. */
  ghost predicate Riskier(i: Inputs, j: Inputs) {
    && i.warn == j.warn && i.quarantine == j.quarantine && i.tenant == j.tenant && i.allowBlock == j.allowBlock
    && StagesRaised(i.stages, j.stages) && i.feedback <= j.feedback && VipRaised(i, j) && CampaignRaised(i, j)
  }

  lemma ScaleMonotone(a: int, b: int, w: real)
    requires a <= b && w >= 0.0
    ensures a as real * w <= b as real * w
  {
    assert (b - a) as real * w >= 0.0;
    assert b as real * w == a as real * w + (b - a) as real * w;
  }

  lemma TruncMonotone(x: real, y: real)
    requires x <= y
    ensures Trunc(x) <= Trunc(y)
  {
  }

  lemma ScaledMonotone(a: int, b: int, w: real)
    requires a <= b && w >= 0.0
    ensures Scaled(a, w) <= Scaled(b, w)
  {
    ScaleMonotone(a, b, w);
    TruncMonotone(a as real * w, b as real * w);
  }

  lemma StageMonotone(i: Inputs, j: Inputs, a: StageScore, b: StageScore)
    requires i.tenant == j.tenant && a.stage == b.stage && a.delta <= b.delta && Weight(i, a.stage) >= 0.0
    ensures Weighted(i, a).delta <= Weighted(j, b).delta
  {
    ScaledMonotone(a.delta, b.delta, Weight(i, a.stage));
  }

  lemma WeightedMonotone(i: Inputs, j: Inputs, k: nat)
    requires i.tenant == j.tenant && StagesRaised(i.stages, j.stages) && NonnegativeWeights(i) && k < |i.stages|
    ensures WeightedStages(i)[k].delta <= WeightedStages(j)[k].delta
  {
    assert Weight(i, i.stages[k].stage) >= 0.0;
    StageMonotone(i, j, i.stages[k], j.stages[k]);
  }

  lemma {:induction false} SumMonotone(a: seq<StageScore>, b: seq<StageScore>)
    requires |a| == |b| && forall k :: 0 <= k < |a| ==> a[k].delta <= b[k].delta
    ensures Sum(a) <= Sum(b)
  {
    if a != [] {
      SumMonotone(a[..|a| - 1], b[..|b| - 1]);
    }
  }

  lemma EffectiveQuarantineMonotone(i: Inputs, j: Inputs)
    requires Riskier(i, j) && BaseQuarantine(i) > Warn(i)
    ensures Warn(j) == Warn(i) < EffectiveQuarantine(j) <= EffectiveQuarantine(i)
  {
  }

  /** More cause for alarm never weakens the action; the quarantine threshold stays above the warning one. */
  lemma DecisionIsMonotone(i: Inputs, j: Inputs)
    requires Riskier(i, j) && NonnegativeWeights(i) && BaseQuarantine(i) > Warn(i)
    ensures BaseQuarantine(j) > Warn(j) && EffectiveQuarantine(j) > Warn(j)
    ensures ActionOf(i).Severity() <= ActionOf(j).Severity()
  {
    EffectiveQuarantineMonotone(i, j);
    var a, b := WeightedStages(i), WeightedStages(j);
    forall k | 0 <= k < |a|
      ensures a[k].delta <= b[k].delta
    {
      WeightedMonotone(i, j, k);
    }
    SumMonotone(a, b);
    assert Boosts(i) <= Boosts(j);
    if HasMalware(a) {
      var k :| 0 <= k < |a| && a[k].delta >= 100;
      assert b[k].delta >= 100;
    }
  }

  lemma {:induction false} SumAtLeast(stages: seq<StageScore>, k: nat, least: nat)
    requires k < |stages| && stages[k].delta >= least && forall j :: 0 <= j < |stages| ==> stages[j].delta >= 0
    ensures Sum(stages) >= least
  {
    var last := |stages| - 1;
    if k < last {
      SumAtLeast(stages[..last], k, least);
    } else {
      SumNonnegative(stages[..last]);
    }
  }

  lemma {:induction false} SumNonnegative(stages: seq<StageScore>)
    requires forall j :: 0 <= j < |stages| ==> stages[j].delta >= 0
    ensures Sum(stages) >= 0
  {
    if stages != [] {
      SumNonnegative(stages[..|stages| - 1]);
    }
  }

  lemma WeightedNonnegative(i: Inputs, s: StageScore)
    requires s.delta >= 0 && NonnegativeWeights(i)
    ensures Weighted(i, s).delta >= 0
    ensures Weight(i, s.stage) == 1.0 ==> Weighted(i, s).delta == s.delta
  {
    assert Weight(i, s.stage) >= 0.0;
    ScaleMonotone(0, s.delta, Weight(i, s.stage));
    TruncMonotone(0.0, s.delta as real * Weight(i, s.stage));
  }

  /**
   Whatever analysts have fed back, a stage that scores 100 at weight 1 is not forwarded, given
   a warning threshold of at most 60 and no negative score or boost; an allow rule does not help.
   */
  lemma MalwareIsNeverForwarded(i: Inputs, k: nat)
    requires BaseQuarantine(i) > Warn(i) && Warn(i) <= 60 && NonnegativeWeights(i)
    requires k < |i.stages| && i.stages[k].delta >= 100 && Weight(i, i.stages[k].stage) == 1.0
    requires forall j :: 0 <= j < |i.stages| ==> i.stages[j].delta >= 0
    requires -40 <= i.feedback <= 50 && Boosts(i) >= 0
    ensures ActionOf(i) != Forward
  {
    var weighted := WeightedStages(i);
    forall j | 0 <= j < |weighted|
      ensures weighted[j].delta >= 0
    {
      WeightedNonnegative(i, i.stages[j]);
    }
    WeightedNonnegative(i, i.stages[k]);
    assert weighted[k].delta >= 100;
    SumAtLeast(weighted, k, 100);
  }
}
