/** Domain reputation from analyst feedback, decision_engine/feedback_loop.py. */
module FeedbackLoop {
  import opened Text
  import opened Numbers
  import opened Scorer

  const LOWEST := -40
  const HIGHEST := 50
  const STEP := 15

  datatype FeedbackRecord = FeedbackRecord(quarantineId: string, envelopeFrom: string, domain: string, action: string)

  function DomainOf(envelopeFrom: string): string {
    Strip(Lower(AfterLast(envelopeFrom, '@')))
  }

  function Adjusted(current: int, action: string): int {
    if action == "release" then Max(current - STEP, LOWEST)
    else if action == "reject" then Min(current + STEP, HIGHEST)
    else current
  }

  /** The reputation that a history of feedback gives a domain. */
  function Reputation(records: seq<FeedbackRecord>, domain: string): int {
    if records == [] then 0
    else
      var before, last := Reputation(records[..|records| - 1], domain), records[|records| - 1];
      if last.domain == domain then Adjusted(before, last.action) else before
  }

  class FeedbackLoopEngine {
    var records: seq<FeedbackRecord>
    var domainScores: map<string, int>

    /** The table holds the reputation of every domain that the records speak of. */
    ghost predicate Valid()
      reads this
    {
      && "" !in domainScores
      && forall d :: d != "" ==> (if d in domainScores then domainScores[d] else 0) == Reputation(records, d)
    }

    constructor ()
      ensures Valid() && records == []
    {
      records, domainScores := [], map[];
    }

    method RecordFeedback(quarantineId: string, envelopeFrom: string, action: string) returns (record: FeedbackRecord)
      requires Valid()
      modifies this
      ensures Valid()
      ensures record == FeedbackRecord(quarantineId, envelopeFrom, DomainOf(envelopeFrom), Lower(action))
      ensures records == old(records) + [record]
    {
      record := FeedbackRecord(quarantineId, envelopeFrom, DomainOf(envelopeFrom), Lower(action));
      var domain := record.domain;
      ghost var before := records;
      records := records + [record];
      assert records[..|before|] == before;
      if domain != "" {
        var current := if domain in domainScores then domainScores[domain] else 0;
        if Lower(action) == "release" {
          domainScores := domainScores[domain := Max(current - 15, -40)];
        } else if Lower(action) == "reject" {
          domainScores := domainScores[domain := Min(current + 15, 50)];
        }
      }
    }

    method GetDomainAdjustment(domain: string) returns (adjustment: int)
      requires Valid()
      ensures adjustment == if Strip(Lower(domain)) == "" then 0 else Reputation(records, Strip(Lower(domain)))
      ensures LOWEST <= adjustment <= HIGHEST
    {
      var clean := Strip(Lower(domain));
      adjustment := if clean in domainScores then domainScores[clean] else 0;
      ReputationIsBounded(records, clean);
    }
  }

  /** Every history keeps the adjustment within the two saturation points. */
  lemma {:induction false} ReputationIsBounded(records: seq<FeedbackRecord>, domain: string)
    ensures LOWEST <= Reputation(records, domain) <= HIGHEST
  {
    if records != [] {
      ReputationIsBounded(records[..|records| - 1], domain);
    }
  }

  /** So no history of feedback gets a message with a malware score forwarded under the default thresholds. */
  lemma FeedbackCannotReleaseMalware(records: seq<FeedbackRecord>, domain: string, i: Inputs, k: nat)
    requires i.tenant.None? && i.warn == DEFAULT_WARN_THRESHOLD && i.quarantine == DEFAULT_QUARANTINE_THRESHOLD
    requires i.feedback == Reputation(records, domain) && Boosts(i) >= 0
    requires k < |i.stages| && i.stages[k].delta >= 100 && forall j :: 0 <= j < |i.stages| ==> i.stages[j].delta >= 0
    ensures ActionOf(i) != Forward
  {
    ReputationIsBounded(records, domain);
    MalwareIsNeverForwarded(i, k);
  }

  /** Feedback of one kind about one domain. */
  ghost predicate Uniform(records: seq<FeedbackRecord>, domain: string, action: string) {
    forall k :: 0 <= k < |records| ==> records[k].domain == domain && records[k].action == action
  }

  /** Every release lowers the score by 15, down to -40, every reject raises it by 15, up to 50. */
  lemma {:induction false} FeedbackAddsUp(records: seq<FeedbackRecord>, domain: string)
    ensures Uniform(records, domain, "release") ==> Reputation(records, domain) == Max(-15 * |records|, -40)
    ensures Uniform(records, domain, "reject") ==> Reputation(records, domain) == Min(15 * |records|, 50)
  {
    if records != [] {
      FeedbackAddsUp(records[..|records| - 1], domain);
    }
  }

  /** Feedback about another domain, or of another kind, changes nothing. */
  lemma OtherFeedbackChangesNothing(records: seq<FeedbackRecord>, r: FeedbackRecord, domain: string)
    requires r.domain != domain || r.action !in ["release", "reject"]
    ensures Reputation(records + [r], domain) == Reputation(records, domain)
  {
    assert (records + [r])[..|records|] == records;
  }

  /** The domain of an address is what follows its last @, in lower case. */
  lemma DomainIsRead(user: string, domain: string)
    requires '@' !in domain && Tight(domain, IsSpace)
    ensures DomainOf(user + ['@'] + domain) == Lower(domain) == DomainOf(domain)
  {
    AfterLastOf(user, '@', domain);
    NothingToStrip(Lower(domain));
  }
}
