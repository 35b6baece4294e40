/**
 The first-match reading of an SPF policy, with no lookup budget and no depth guard, and the
 proof that the interpreter of module Spf computes it whenever no request to spend is refused.
 A second reading changes one rule to that of RFC 7208, and the last part compares the two.
 */
module SpfSemantics {
  import opened Text
  import opened Spf

  // ---------- What a policy means ----------

  /** Whether a term that is not an include matches. */
  predicate Matches(e: Env, domain: string, sender: string, m: Mechanism)
    requires !m.Include?
  {
    match m
    case All => true
    case Ip4(net) => !e.V6() && e.zone.inNetwork(e.ip, net, 32)
    case Ip6(net) => e.V6() && e.zone.inNetwork(e.ip, net, 128)
    case A(name) => ResolveMatches(e, Target(e, domain, sender, name))
    case Mx(name) =>
      var hosts := e.zone.mx(Target(e, domain, sender, name));
      hosts.Some? && exists h :: h in hosts.value && ResolveMatches(e, HostName(h))
    case Exists(name) =>
      var answers := e.zone.address(Target(e, domain, sender, Some(name)), false);
      answers.Some? && |answers.value| > 0
    case Redirect(_) => false
    case Unknown => false
  }

  /** The target of the last redirect among the first n terms; "" if there is none. */
  function RedirectAfter(e: Env, domain: string, sender: string, terms: seq<Term>, n: nat): string
    requires n <= |terms|
  {
    if n == 0 then ""
    else NextRedirect(e, domain, sender, terms[n - 1].mech, RedirectAfter(e, domain, sender, terms, n - 1))
  }

  function IncludeTarget(e: Env, domain: string, sender: string, t: Term): string
    requires t.mech.Include?
  {
    Target(e, domain, sender, Some(t.mech.name))
  }

  /** The rule for an included policy without a record: no match in the code, an error in section 5.2 of RFC 7208. */
  datatype Reading = AsCoded | Rfc7208

  /** The results of an included policy that end the evaluation of the including one. */
  predicate Ends(g: Reading, r: Code) {
    r == Pass || r == PermError || (g.Rfc7208? && r == NoRecord)
  }

  function IncludeResult(t: Term, r: Code): Code {
    if r == Pass then QualifierToResult(t.qualifier) else PermError
  }

  /** The policy of `domain` comes to `code` by a derivation that nests at most `height` deep. */
  ghost predicate Means(g: Reading, e: Env, domain: string, sender: string, code: Code, height: nat)
    decreases height, 2
  {
    match FindSpfRecord(e.zone, domain)
    case Multiple => code == PermError
    case Missing => code == NoRecord
    case Found(text) => Concludes(g, e, domain, EffectiveSender(sender, domain), Terms(text), code, height)
  }

  /** The first term that does not pass decides; if all pass, the redirect does. */
  ghost predicate Concludes(g: Reading, e: Env, domain: string, sender: string, terms: seq<Term>, code: Code,
                            height: nat)
    decreases height, 1
  {
    || (exists k :: 0 <= k < |terms| && Decides(g, e, domain, sender, terms[k], code, height)
                 && AllPass(g, e, domain, sender, terms, k, height))
    || (AllPass(g, e, domain, sender, terms, |terms|, height)
        && var redirect := RedirectAfter(e, domain, sender, terms, |terms|);
           if redirect == "" then code == Neutral else height > 0 && Means(g, e, redirect, sender, code, height - 1))
  }

  ghost predicate AllPass(g: Reading, e: Env, domain: string, sender: string, terms: seq<Term>, n: int, height: nat)
    requires 0 <= n <= |terms|
    decreases height, 0, 2
  {
    forall j :: 0 <= j < n ==> Passes(g, e, domain, sender, terms[j], height)
  }

  /** The included policy means r, by a derivation one level lower. */
  ghost predicate Included(g: Reading, e: Env, domain: string, sender: string, t: Term, r: Code, height: nat)
    requires t.mech.Include?
    decreases height, 0, 0
  {
    height > 0 && Means(g, e, IncludeTarget(e, domain, sender, t), sender, r, height - 1)
  }

  ghost predicate Decides(g: Reading, e: Env, domain: string, sender: string, t: Term, code: Code, height: nat)
    decreases height, 0, 1
  {
    if t.mech.Include? then
      exists r :: Ends(g, r) && Included(g, e, domain, sender, t, r, height) && code == IncludeResult(t, r)
    else Matches(e, domain, sender, t.mech) && code == QualifierToResult(t.qualifier)
  }

  ghost predicate Passes(g: Reading, e: Env, domain: string, sender: string, t: Term, height: nat)
    decreases height, 0, 1
  {
    if t.mech.Include? then exists r :: !Ends(g, r) && Included(g, e, domain, sender, t, r, height)
    else !Matches(e, domain, sender, t.mech)
  }

  // ---------- The meaning is unique ----------

  lemma {:induction false} MeansTaller(g: Reading, e: Env, domain: string, sender: string, code: Code, h: nat,
                                       taller: nat)
    requires h <= taller && Means(g, e, domain, sender, code, h)
    ensures Means(g, e, domain, sender, code, taller)
    decreases h, 2
  {
    var record := FindSpfRecord(e.zone, domain);
    if record.Found? {
      ConcludesTaller(g, e, domain, EffectiveSender(sender, domain), Terms(record.text), code, h, taller);
    }
  }

  lemma {:induction false} ConcludesTaller(g: Reading, e: Env, domain: string, sender: string, terms: seq<Term>,
                                           code: Code, h: nat, taller: nat)
    requires h <= taller && Concludes(g, e, domain, sender, terms, code, h)
    ensures Concludes(g, e, domain, sender, terms, code, taller)
    decreases h, 1
  {
    forall j | 0 <= j < |terms| && Passes(g, e, domain, sender, terms[j], h)
      ensures Passes(g, e, domain, sender, terms[j], taller)
    {
      TermTaller(g, e, domain, sender, terms[j], Neutral, h, taller);
    }
    var k := Decider(g, e, domain, sender, terms, code, h);
    assert AllPass(g, e, domain, sender, terms, k, taller);
    if k < |terms| {
      TermTaller(g, e, domain, sender, terms[k], code, h, taller);
    } else {
      var redirect := RedirectAfter(e, domain, sender, terms, |terms|);
      if redirect != "" {
        MeansTaller(g, e, redirect, sender, code, h - 1, taller - 1);
      }
    }
  }

  lemma {:induction false} TermTaller(g: Reading, e: Env, domain: string, sender: string, t: Term, code: Code, h: nat,
                                      taller: nat)
    requires h <= taller
    ensures Passes(g, e, domain, sender, t, h) ==> Passes(g, e, domain, sender, t, taller)
    ensures Decides(g, e, domain, sender, t, code, h) ==> Decides(g, e, domain, sender, t, code, taller)
    decreases h, 0, 1
  {
    if t.mech.Include? {
      if Passes(g, e, domain, sender, t, h) {
        var r :| !Ends(g, r) && Included(g, e, domain, sender, t, r, h);
        IncludedTaller(g, e, domain, sender, t, r, h, taller);
      }
      if Decides(g, e, domain, sender, t, code, h) {
        var r :| Ends(g, r) && Included(g, e, domain, sender, t, r, h) && code == IncludeResult(t, r);
        IncludedTaller(g, e, domain, sender, t, r, h, taller);
      }
    }
  }

  lemma {:induction false} IncludedTaller(g: Reading, e: Env, domain: string, sender: string, t: Term, r: Code, h: nat,
                                          taller: nat)
    requires t.mech.Include? && h <= taller && Included(g, e, domain, sender, t, r, h)
    ensures Included(g, e, domain, sender, t, r, taller)
    decreases h, 0, 0
  {
    MeansTaller(g, e, IncludeTarget(e, domain, sender, t), sender, r, h - 1, taller - 1);
  }

  /** Two derivations for the same policy reach the same result. */
  lemma {:induction false} MeaningIsUnique(g: Reading, e: Env, domain: string, sender: string, r1: Code, h1: nat,
                                           r2: Code, h2: nat)
    requires Means(g, e, domain, sender, r1, h1) && Means(g, e, domain, sender, r2, h2)
    ensures r1 == r2
  {
    var h := if h1 > h2 then h1 else h2;
    MeansTaller(g, e, domain, sender, r1, h1, h);
    MeansTaller(g, e, domain, sender, r2, h2, h);
    UniqueAt(g, e, domain, sender, r1, r2, h);
  }

  lemma {:induction false} UniqueAt(g: Reading, e: Env, domain: string, sender: string, r1: Code, r2: Code, h: nat)
    requires Means(g, e, domain, sender, r1, h) && Means(g, e, domain, sender, r2, h)
    ensures r1 == r2
    decreases h, 2
  {
    var record := FindSpfRecord(e.zone, domain);
    if record.Found? {
      UniqueConclusion(g, e, domain, EffectiveSender(sender, domain), Terms(record.text), r1, r2, h);
    }
  }

  lemma {:induction false} UniqueConclusion(g: Reading, e: Env, domain: string, sender: string, terms: seq<Term>,
                                            r1: Code, r2: Code, h: nat)
    requires Concludes(g, e, domain, sender, terms, r1, h) && Concludes(g, e, domain, sender, terms, r2, h)
    ensures r1 == r2
    decreases h, 1
  {
    var k1 := Decider(g, e, domain, sender, terms, r1, h);
    var k2 := Decider(g, e, domain, sender, terms, r2, h);
    if k1 < |terms| {
      DecidesUniquely(g, e, domain, sender, terms[k1], r1, r2, h);
    }
    if k2 < |terms| {
      DecidesUniquely(g, e, domain, sender, terms[k2], r2, r1, h);
    }
    if k1 == k2 == |terms| {
      var redirect := RedirectAfter(e, domain, sender, terms, |terms|);
      if redirect != "" {
        UniqueAt(g, e, redirect, sender, r1, r2, h - 1);
      }
    }
  }

  /** The index of the deciding term, or the number of terms when the redirect decides. */
  lemma Decider(g: Reading, e: Env, domain: string, sender: string, terms: seq<Term>, code: Code, h: nat)
    returns (k: nat)
    requires Concludes(g, e, domain, sender, terms, code, h)
    ensures k <= |terms| && forall j :: 0 <= j < k ==> Passes(g, e, domain, sender, terms[j], h)
    ensures k < |terms| ==> Decides(g, e, domain, sender, terms[k], code, h)
    ensures k == |terms| ==>
            var redirect := RedirectAfter(e, domain, sender, terms, |terms|);
            if redirect == "" then code == Neutral else h > 0 && Means(g, e, redirect, sender, code, h - 1)
  {
    if i :| && 0 <= i < |terms| && Decides(g, e, domain, sender, terms[i], code, h)
            && AllPass(g, e, domain, sender, terms, i, h) {
      return i;
    }
    return |terms|;
  }

  /** A term that decides does not pass, and decides one way only. */
  lemma {:induction false} DecidesUniquely(g: Reading, e: Env, domain: string, sender: string, t: Term, r1: Code,
                                           r2: Code, h: nat)
    requires Decides(g, e, domain, sender, t, r1, h)
    ensures !Passes(g, e, domain, sender, t, h)
    ensures Decides(g, e, domain, sender, t, r2, h) ==> r1 == r2
    decreases h, 0
  {
    if t.mech.Include? {
      var a :| Ends(g, a) && Included(g, e, domain, sender, t, a, h) && r1 == IncludeResult(t, a);
      if Passes(g, e, domain, sender, t, h) {
        var b :| !Ends(g, b) && Included(g, e, domain, sender, t, b, h);
        UniqueAt(g, e, IncludeTarget(e, domain, sender, t), sender, a, b, h - 1);
      }
      if Decides(g, e, domain, sender, t, r2, h) {
        var b :| Ends(g, b) && Included(g, e, domain, sender, t, b, h) && r2 == IncludeResult(t, b);
        UniqueAt(g, e, IncludeTarget(e, domain, sender, t), sender, a, b, h - 1);
      }
    }
  }

  // ---------- Without a refusal, the interpreter computes the meaning ----------

  /** Whether an evaluation is neither refused a lookup nor stopped by the depth guard. */
  predicate Clean(o: Outcome) {
    !o.refused && o.deepest <= MAX_DEPTH
  }

  lemma {:induction false} HostsMatch(e: Env, hosts: seq<string>, used: nat, limit: nat)
    requires used <= limit
    ensures var p := ProbeHosts(e, hosts, used, limit);
            !p.refused ==> (p.verdict.Matched? <==> exists h :: h in hosts && ResolveMatches(e, HostName(h)))
    ensures used + |hosts| <= limit ==> !ProbeHosts(e, hosts, used, limit).refused
    ensures ProbeHosts(e, hosts, used, limit).used <= used + |hosts|
    decreases |hosts|
  {
    if hosts != [] && used < limit && !ResolveMatches(e, HostName(hosts[0])) {
      HostsMatch(e, hosts[1..], used + 1, limit);
    }
  }

  /** How much one term may spend. */
  function ProbeCost(e: Env, domain: string, sender: string, m: Mechanism): nat {
    match m
    case A(_) => 1
    case Exists(_) => 1
    case Mx(name) =>
      var hosts := e.zone.mx(Target(e, domain, sender, name));
      if hosts.Some? then 1 + |hosts.value| else 1
    case _ => 0
  }

  lemma ProbeMatches(e: Env, domain: string, sender: string, m: Mechanism, used: nat, limit: nat)
    requires used <= limit && !m.Include?
    ensures var p := ProbeTerm(e, domain, sender, m, used, limit);
            && (!p.refused ==> p.verdict == Verdictify(Matches(e, domain, sender, m)))
            && (used + ProbeCost(e, domain, sender, m) <= limit ==> !p.refused)
            && p.used <= used + ProbeCost(e, domain, sender, m)
  {
    if m.Mx? && used < limit {
      var hosts := e.zone.mx(Target(e, domain, sender, m.host));
      HostsMatch(e, if hosts.Some? then hosts.value else [], used + 1, limit);
    }
  }

  /** The height of the derivation is how much deeper the evaluation went. */
  lemma {:induction false} Sound(e: Env, domain: string, sender: string, depth: nat, used: nat, limit: nat, h: nat)
    requires used <= limit
    requires var o := EvalDomain(e, domain, sender, depth, used, limit); Clean(o) && o.deepest <= depth + h
    ensures Means(AsCoded, e, domain, sender, EvalDomain(e, domain, sender, depth, used, limit).code, h)
    decreases limit - used, 2, 0
  {
    var record := FindSpfRecord(e.zone, domain);
    if record.Found? {
      var from, terms := EffectiveSender(sender, domain), Terms(record.text);
      SoundTerms(e, domain, from, terms, 0, "", depth, used, limit, h,
                 EvalTerms(e, domain, from, terms, 0, "", depth, used, limit));
    }
  }

  lemma {:induction false} SoundCharged(e: Env, name: string, sender: string, depth: nat, used: nat, limit: nat, h: nat,
                                        o: Outcome)
    requires used <= limit && o == EvalCharged(e, name, sender, depth, used, limit)
    requires Clean(o) && o.deepest <= depth + h
    ensures h > 0 && Means(AsCoded, e, name, sender, o.code, h - 1)
    decreases limit - used, 0, 0
  {
    ChargedRun(e, name, sender, depth, used, limit, o);
    DeepestFrom(e, name, sender, depth + 1, used + 1, limit);
    Sound(e, name, sender, depth + 1, used + 1, limit, h - 1);
  }

  lemma ChargedRun(e: Env, name: string, sender: string, depth: nat, used: nat, limit: nat, o: Outcome)
    requires used <= limit && o == EvalCharged(e, name, sender, depth, used, limit) && !o.refused
    ensures used < limit && o == EvalDomain(e, name, sender, depth + 1, used + 1, limit)
  {
  }

  lemma DeepestFrom(e: Env, domain: string, sender: string, depth: nat, used: nat, limit: nat)
    requires used <= limit
    ensures EvalDomain(e, domain, sender, depth, used, limit).deepest >= depth
  {
  }

  lemma IncludedEndsOrPasses(e: Env, domain: string, sender: string, t: Term, r: Code, h: nat)
    requires t.mech.Include? && Included(AsCoded, e, domain, sender, t, r, h)
    ensures if Ends(AsCoded, r) then Decides(AsCoded, e, domain, sender, t, IncludeResult(t, r), h)
            else Passes(AsCoded, e, domain, sender, t, h)
  {
  }

  lemma OneMorePasses(e: Env, domain: string, sender: string, terms: seq<Term>, i: nat, h: nat)
    requires i < |terms| && AllPass(AsCoded, e, domain, sender, terms, i, h)
    requires Passes(AsCoded, e, domain, sender, terms[i], h)
    ensures AllPass(AsCoded, e, domain, sender, terms, i + 1, h)
  {
  }

  lemma {:induction false} SoundTerms(e: Env, domain: string, sender: string, terms: seq<Term>, i: nat,
                                      redirect: string, depth: nat, used: nat, limit: nat, h: nat, o: Outcome)
    requires used <= limit && i <= |terms| && o == EvalTerms(e, domain, sender, terms, i, redirect, depth, used, limit)
    requires AllPass(AsCoded, e, domain, sender, terms, i, h) && redirect == RedirectAfter(e, domain, sender, terms, i)
    requires Clean(o) && o.deepest <= depth + h
    ensures Concludes(AsCoded, e, domain, sender, terms, o.code, h)
    decreases limit - used, 1, |terms| - i
  {
    if i == |terms| {
      if redirect != "" {
        SoundCharged(e, redirect, sender, depth, used, limit, h, o);
      }
    } else if terms[i].mech.Include? {
      var name := IncludeTarget(e, domain, sender, terms[i]);
      var sub := EvalCharged(e, name, sender, depth, used, limit);
      SoundCharged(e, name, sender, depth, used, limit, h, sub);
      IncludedEndsOrPasses(e, domain, sender, terms[i], sub.code, h);
      if !Ends(AsCoded, sub.code) {
        OneMorePasses(e, domain, sender, terms, i, h);
        SoundTerms(e, domain, sender, terms, i + 1, redirect, depth, sub.used, limit, h,
                   EvalTerms(e, domain, sender, terms, i + 1, redirect, depth, sub.used, limit));
      }
    } else {
      var p := ProbeTerm(e, domain, sender, terms[i].mech, used, limit);
      var next := NextRedirect(e, domain, sender, terms[i].mech, redirect);
      ProbeMatches(e, domain, sender, terms[i].mech, used, limit);
      if p.verdict.NotMatched? {
        OneMorePasses(e, domain, sender, terms, i, h);
        SoundTerms(e, domain, sender, terms, i + 1, next, depth, p.used, limit, h,
                   EvalTerms(e, domain, sender, terms, i + 1, next, depth, p.used, limit));
      }
    }
  }

  // ---------- Any budget that covers what was spent gives the same run ----------

  lemma {:induction false} LargerLimitHosts(e: Env, hosts: seq<string>, used: nat, limit: nat, other: nat)
    requires used <= limit && !ProbeHosts(e, hosts, used, limit).refused
             && ProbeHosts(e, hosts, used, limit).used <= other
    ensures ProbeHosts(e, hosts, used, other) == ProbeHosts(e, hosts, used, limit)
    decreases |hosts|
  {
    if hosts != [] && !ResolveMatches(e, HostName(hosts[0])) {
      LargerLimitHosts(e, hosts[1..], used + 1, limit, other);
    }
  }

  lemma LargerLimitProbe(e: Env, domain: string, sender: string, m: Mechanism, used: nat, limit: nat, other: nat)
    requires used <= limit && !m.Include?
    requires var p := ProbeTerm(e, domain, sender, m, used, limit); !p.refused && p.used <= other
    ensures ProbeTerm(e, domain, sender, m, used, other) == ProbeTerm(e, domain, sender, m, used, limit)
  {
    if m.Mx? {
      var hosts := e.zone.mx(Target(e, domain, sender, m.host));
      LargerLimitHosts(e, if hosts.Some? then hosts.value else [], used + 1, limit, other);
    }
  }

  /**
   A run in which no request to spend is refused is the same under every limit, larger or
   smaller, that still covers what the run spends.
   */
  lemma {:induction false} LargerLimit(e: Env, domain: string, sender: string, depth: nat, used: nat, limit: nat,
                                       other: nat)
    requires used <= limit
    requires var o := EvalDomain(e, domain, sender, depth, used, limit); !o.refused && o.used <= other
    ensures EvalDomain(e, domain, sender, depth, used, other) == EvalDomain(e, domain, sender, depth, used, limit)
    decreases limit - used, 2, 0
  {
    var record := FindSpfRecord(e.zone, domain);
    if depth <= MAX_DEPTH && record.Found? {
      LargerLimitTerms(e, domain, EffectiveSender(sender, domain), Terms(record.text), 0, "", depth, used, limit,
                       other);
    }
  }

  lemma {:induction false} LargerLimitCharged(e: Env, name: string, sender: string, depth: nat, used: nat, limit: nat,
                                              other: nat)
    requires used <= limit
    requires var o := EvalCharged(e, name, sender, depth, used, limit); !o.refused && o.used <= other
    ensures EvalCharged(e, name, sender, depth, used, other) == EvalCharged(e, name, sender, depth, used, limit)
    decreases limit - used, 0, 0
  {
    LargerLimit(e, name, sender, depth + 1, used + 1, limit, other);
  }

  lemma {:induction false} LargerLimitTerms(e: Env, domain: string, sender: string, terms: seq<Term>, i: nat,
                                            redirect: string, depth: nat, used: nat, limit: nat, other: nat)
    requires used <= limit && i <= |terms|
    requires var o := EvalTerms(e, domain, sender, terms, i, redirect, depth, used, limit);
             !o.refused && o.used <= other
    ensures EvalTerms(e, domain, sender, terms, i, redirect, depth, used, other)
         == EvalTerms(e, domain, sender, terms, i, redirect, depth, used, limit)
    decreases limit - used, 1, |terms| - i
  {
    if i == |terms| {
      if redirect != "" {
        LargerLimitCharged(e, redirect, sender, depth, used, limit, other);
      }
    } else if terms[i].mech.Include? {
      var name := IncludeTarget(e, domain, sender, terms[i]);
      var sub := EvalCharged(e, name, sender, depth, used, limit);
      LargerLimitCharged(e, name, sender, depth, used, limit, other);
      if sub.code != Pass && sub.code != PermError {
        LargerLimitTerms(e, domain, sender, terms, i + 1, redirect, depth, sub.used, limit, other);
      }
    } else {
      var p := ProbeTerm(e, domain, sender, terms[i].mech, used, limit);
      LargerLimitProbe(e, domain, sender, terms[i].mech, used, limit, other);
      if p.verdict.NotMatched? {
        LargerLimitTerms(e, domain, sender, terms, i + 1, NextRedirect(e, domain, sender, terms[i].mech, redirect),
                         depth, p.used, limit, other);
      }
    }
  }

  // ---------- A budget that suffices always exists ----------

  /** With n lookups left, a policy that has a meaning is evaluated without a refusal. */
  lemma {:induction false} Sufficient(e: Env, domain: string, sender: string, depth: nat, code: Code, h: nat)
    returns (n: nat)
    requires Means(AsCoded, e, domain, sender, code, h) && depth + h <= MAX_DEPTH
    ensures forall used: nat, limit: nat | used + n <= limit ::
              var o := EvalDomain(e, domain, sender, depth, used, limit);
              Clean(o) && o.deepest <= depth + h && o.code == code && o.used <= used + n
    decreases h, 2, 0
  {
    var record := FindSpfRecord(e.zone, domain);
    if record.Found? {
      n := SufficientTerms(e, domain, EffectiveSender(sender, domain), Terms(record.text), 0, "", depth, code, h);
    } else {
      n := 0;
    }
  }

  lemma {:induction false} SufficientCharged(e: Env, name: string, sender: string, depth: nat, code: Code, h: nat)
    returns (n: nat)
    requires h > 0 && Means(AsCoded, e, name, sender, code, h - 1) && depth + h <= MAX_DEPTH
    ensures forall used: nat, limit: nat | used + n <= limit ::
              var o := EvalCharged(e, name, sender, depth, used, limit);
              Clean(o) && o.deepest <= depth + h && o.code == code && o.used <= used + n
    decreases h, 0, 0
  {
    var m := Sufficient(e, name, sender, depth + 1, code, h - 1);
    n := m + 1;
  }

  lemma {:induction false} SufficientTerms(e: Env, domain: string, sender: string, terms: seq<Term>, i: nat,
                                           redirect: string, depth: nat, code: Code, h: nat) returns (n: nat)
    requires i <= |terms| && Concludes(AsCoded, e, domain, sender, terms, code, h) && depth + h <= MAX_DEPTH
    requires AllPass(AsCoded, e, domain, sender, terms, i, h) && redirect == RedirectAfter(e, domain, sender, terms, i)
    ensures forall used: nat, limit: nat | used + n <= limit ::
              var o := EvalTerms(e, domain, sender, terms, i, redirect, depth, used, limit);
              Clean(o) && o.deepest <= depth + h && o.code == code && o.used <= used + n
    decreases h, 1, |terms| - i
  {
    var k := Decider(AsCoded, e, domain, sender, terms, code, h);
    if k < i {
      DecidesUniquely(AsCoded, e, domain, sender, terms[k], code, code, h);
      assert false;
    }
    if i == |terms| {
      if redirect == "" {
        n := 0;
      } else {
        n := SufficientCharged(e, redirect, sender, depth, code, h);
      }
    } else if terms[i].mech.Include? {
      n := SufficientInclude(e, domain, sender, terms, i, redirect, depth, code, h, k);
    } else {
      n := SufficientPlain(e, domain, sender, terms, i, redirect, depth, code, h, k);
    }
  }

  lemma {:induction false} SufficientInclude(e: Env, domain: string, sender: string, terms: seq<Term>, i: nat,
                                             redirect: string, depth: nat, code: Code, h: nat, k: nat) returns (n: nat)
    requires i < |terms| && terms[i].mech.Include? && Concludes(AsCoded, e, domain, sender, terms, code, h)
             && depth + h <= MAX_DEPTH
    requires AllPass(AsCoded, e, domain, sender, terms, i, h) && redirect == RedirectAfter(e, domain, sender, terms, i)
    requires if k == i then Decides(AsCoded, e, domain, sender, terms[i], code, h)
             else Passes(AsCoded, e, domain, sender, terms[i], h)
    ensures forall used: nat, limit: nat | used + n <= limit ::
              var o := EvalTerms(e, domain, sender, terms, i, redirect, depth, used, limit);
              Clean(o) && o.deepest <= depth + h && o.code == code && o.used <= used + n
    decreases h, 1, |terms| - i, 0
  {
    var name := IncludeTarget(e, domain, sender, terms[i]);
    if k == i {
      n := SufficientDecider(e, domain, sender, terms, i, redirect, depth, code, h);
    } else {
      var sub :| !Ends(AsCoded, sub) && Included(AsCoded, e, domain, sender, terms[i], sub, h);
      var first := SufficientCharged(e, name, sender, depth, sub, h);
      var rest := SufficientTerms(e, domain, sender, terms, i + 1, redirect, depth, code, h);
      n := first + rest;
      forall used: nat, limit: nat | used + n <= limit
        ensures var o := EvalTerms(e, domain, sender, terms, i, redirect, depth, used, limit);
                Clean(o) && o.deepest <= depth + h && o.code == code && o.used <= used + n
      {
        var s := EvalCharged(e, name, sender, depth, used, limit);
        assert Clean(s) && s.deepest <= depth + h && s.code == sub && s.used + rest <= limit;
        var r := EvalTerms(e, domain, sender, terms, i + 1, redirect, depth, s.used, limit);
        assert Clean(r) && r.deepest <= depth + h && r.code == code && r.used <= s.used + rest;
        IncludePasses(e, domain, sender, terms, i, redirect, depth, used, limit, s);
      }
    }
  }

  lemma {:induction false} SufficientDecider(e: Env, domain: string, sender: string, terms: seq<Term>, i: nat,
                                             redirect: string, depth: nat, code: Code, h: nat) returns (n: nat)
    requires i < |terms| && terms[i].mech.Include? && depth + h <= MAX_DEPTH
    requires Decides(AsCoded, e, domain, sender, terms[i], code, h)
    ensures forall used: nat, limit: nat | used + n <= limit ::
              var o := EvalTerms(e, domain, sender, terms, i, redirect, depth, used, limit);
              Clean(o) && o.deepest <= depth + h && o.code == code && o.used <= used + n
    decreases h, 1, 0
  {
    var sub :| Ends(AsCoded, sub) && Included(AsCoded, e, domain, sender, terms[i], sub, h)
      && code == IncludeResult(terms[i], sub);
    n := SufficientCharged(e, IncludeTarget(e, domain, sender, terms[i]), sender, depth, sub, h);
  }

  /** An included policy that does not decide is read over. */
  lemma IncludePasses(e: Env, domain: string, sender: string, terms: seq<Term>, i: nat, redirect: string, depth: nat,
                      used: nat, limit: nat, sub: Outcome)
    requires used <= limit && i < |terms| && terms[i].mech.Include? && !Ends(AsCoded, sub.code)
    requires sub == EvalCharged(e, IncludeTarget(e, domain, sender, terms[i]), sender, depth, used, limit)
    ensures EvalTerms(e, domain, sender, terms, i, redirect, depth, used, limit)
         == sub.Then(EvalTerms(e, domain, sender, terms, i + 1, redirect, depth, sub.used, limit))
  {
  }

  lemma {:induction false} SufficientPlain(e: Env, domain: string, sender: string, terms: seq<Term>, i: nat,
                                           redirect: string, depth: nat, code: Code, h: nat, k: nat) returns (n: nat)
    requires i < |terms| && !terms[i].mech.Include? && Concludes(AsCoded, e, domain, sender, terms, code, h)
             && depth + h <= MAX_DEPTH
    requires AllPass(AsCoded, e, domain, sender, terms, i, h) && redirect == RedirectAfter(e, domain, sender, terms, i)
    requires if k == i then Decides(AsCoded, e, domain, sender, terms[i], code, h)
             else Passes(AsCoded, e, domain, sender, terms[i], h)
    ensures forall used: nat, limit: nat | used + n <= limit ::
              var o := EvalTerms(e, domain, sender, terms, i, redirect, depth, used, limit);
              Clean(o) && o.deepest <= depth + h && o.code == code && o.used <= used + n
    decreases h, 1, |terms| - i, 0
  {
    var m := terms[i].mech;
    var later := NextRedirect(e, domain, sender, m, redirect);
    n := ProbeCost(e, domain, sender, m);
    var rest: nat := 0;
    if k != i {
      rest := SufficientTerms(e, domain, sender, terms, i + 1, later, depth, code, h);
      n := n + rest;
    }
    forall used: nat, limit: nat | used + n <= limit
      ensures var o := EvalTerms(e, domain, sender, terms, i, redirect, depth, used, limit);
              Clean(o) && o.deepest <= depth + h && o.code == code && o.used <= used + n
    {
      ProbeMatches(e, domain, sender, m, used, limit);
      var p := ProbeTerm(e, domain, sender, m, used, limit);
      if k != i {
        assert p.verdict.NotMatched? && p.used + rest <= limit;
        var r := EvalTerms(e, domain, sender, terms, i + 1, later, depth, p.used, limit);
        assert Clean(r) && r.deepest <= depth + h && r.code == code && r.used <= p.used + rest;
      }
    }
  }

  // ---------- The main results ----------

  /**
   When no request to spend is refused, the evaluation of check_spf returns the one result that
   the policy means; any other limit that covers its lookups gives the same result and count.
   */
  lemma UnrefusedRunIsFirstMatch(e: Env, domain: string, sender: string, other: nat)
    requires !EvalDomain(e, domain, sender, 0, 0, MAX_DNS_LOOKUPS).refused
    ensures var o := EvalDomain(e, domain, sender, 0, 0, MAX_DNS_LOOKUPS);
            && Means(AsCoded, e, domain, sender, o.code, MAX_DNS_LOOKUPS)
            && (forall code, h: nat :: Means(AsCoded, e, domain, sender, code, h) ==> code == o.code)
            && (o.used <= other ==> EvalDomain(e, domain, sender, 0, 0, other) == o)
  {
    var o := EvalDomain(e, domain, sender, 0, 0, MAX_DNS_LOOKUPS);
    BoundedRun(e, domain, sender, 0, 0, MAX_DNS_LOOKUPS);
    Sound(e, domain, sender, 0, 0, MAX_DNS_LOOKUPS, MAX_DNS_LOOKUPS);
    forall code, h: nat | Means(AsCoded, e, domain, sender, code, h)
      ensures code == o.code
    {
      MeaningIsUnique(AsCoded, e, domain, sender, code, h, o.code, MAX_DNS_LOOKUPS);
    }
    if o.used <= other {
      LargerLimit(e, domain, sender, 0, 0, MAX_DNS_LOOKUPS, other);
    }
  }

  /** Under this limit the evaluation of check_spf is refused nothing, nests at most h deep, and gives `code`. */
  predicate Evaluates(e: Env, domain: string, sender: string, limit: nat, code: Code, h: nat) {
    var o := EvalDomain(e, domain, sender, 0, 0, limit);
    !o.refused && o.deepest <= h && o.code == code
  }

  lemma DerivationsAreEvaluations(e: Env, domain: string, sender: string, code: Code, h: nat) returns (limit: nat)
    requires h <= MAX_DEPTH && Means(AsCoded, e, domain, sender, code, h)
    ensures Evaluates(e, domain, sender, limit, code, h)
  {
    limit := Sufficient(e, domain, sender, 0, code, h);
    var o := EvalDomain(e, domain, sender, 0, 0, limit);
    assert 0 + limit <= limit && Clean(o) && o.deepest <= 0 + h && o.code == code;
  }

  /**
   At every depth that the guard permits: what evaluations return under some limit, refused
   nothing and nesting no deeper, is exactly what the policy means by a derivation no deeper.
   */
  lemma MeaningIffSomeBudgetSuffices(e: Env, domain: string, sender: string, code: Code, h: nat)
    requires h <= MAX_DEPTH
    ensures (exists limit: nat :: Evaluates(e, domain, sender, limit, code, h))
            <==> Means(AsCoded, e, domain, sender, code, h)
  {
    if limit: nat :| Evaluates(e, domain, sender, limit, code, h) {
      Sound(e, domain, sender, 0, 0, limit, h);
    }
    if Means(AsCoded, e, domain, sender, code, h) {
      var limit := DerivationsAreEvaluations(e, domain, sender, code, h);
    }
  }

  // ---------- Against the rule of section 5.2 of RFC 7208 ----------

  /** The evaluation reaches, at some depth, an include whose policy comes to "no record". */
  ghost predicate MeetsVoid(e: Env, domain: string, sender: string, height: nat)
    decreases height, 1
  {
    match FindSpfRecord(e.zone, domain)
    case Multiple => false
    case Missing => false
    case Found(text) => TermsMeetVoid(e, domain, EffectiveSender(sender, domain), Terms(text), height)
  }

  ghost predicate TermsMeetVoid(e: Env, domain: string, sender: string, terms: seq<Term>, height: nat)
    decreases height, 0, 1
  {
    || (exists k :: 0 <= k < |terms| && VoidInclude(e, domain, sender, terms[k], height)
                 && AllPass(AsCoded, e, domain, sender, terms, k, height))
    || (AllPass(AsCoded, e, domain, sender, terms, |terms|, height)
        && var redirect := RedirectAfter(e, domain, sender, terms, |terms|);
           redirect != "" && height > 0 && MeetsVoid(e, redirect, sender, height - 1))
  }

  ghost predicate VoidInclude(e: Env, domain: string, sender: string, t: Term, height: nat)
    decreases height, 0, 0
  {
    t.mech.Include? && height > 0
    && (Means(AsCoded, e, IncludeTarget(e, domain, sender, t), sender, NoRecord, height - 1)
        || MeetsVoid(e, IncludeTarget(e, domain, sender, t), sender, height - 1))
  }

  function RfcCode(meetsVoid: bool, code: Code): Code {
    if meetsVoid then PermError else code
  }

  /** Under the rule of the RFC a policy means what it means to the code, or PermError where it meets a void include. */
  lemma {:induction false} RfcReading(e: Env, domain: string, sender: string, code: Code, h: nat)
    requires Means(AsCoded, e, domain, sender, code, h)
    ensures Means(Rfc7208, e, domain, sender, RfcCode(MeetsVoid(e, domain, sender, h), code), h)
    decreases h, 2
  {
    var record := FindSpfRecord(e.zone, domain);
    if record.Found? {
      RfcConclusion(e, domain, EffectiveSender(sender, domain), Terms(record.text), code, h);
    }
  }

  /** The terms before k pass under both rules; k is the first void include, or `last` if there is none before it. */
  lemma {:induction false} RfcFront(e: Env, domain: string, sender: string, terms: seq<Term>, last: nat, h: nat)
    returns (k: nat)
    requires last <= |terms| && AllPass(AsCoded, e, domain, sender, terms, last, h)
    ensures k <= last && (k < last ==> VoidInclude(e, domain, sender, terms[k], h))
    ensures forall j :: 0 <= j < k ==> !VoidInclude(e, domain, sender, terms[j], h)
    ensures AllPass(AsCoded, e, domain, sender, terms, k, h) && AllPass(Rfc7208, e, domain, sender, terms, k, h)
    decreases h, 0, 1
  {
    k := 0;
    while k < last && !VoidInclude(e, domain, sender, terms[k], h)
      invariant k <= last
      invariant forall j :: 0 <= j < k ==> !VoidInclude(e, domain, sender, terms[j], h)
      invariant forall j :: 0 <= j < k ==> Passes(Rfc7208, e, domain, sender, terms[j], h)
    {
      RfcTerm(e, domain, sender, terms[k], Neutral, h);
      k := k + 1;
    }
  }

  lemma {:induction false} RfcConclusion(e: Env, domain: string, sender: string, terms: seq<Term>, code: Code, h: nat)
    requires Concludes(AsCoded, e, domain, sender, terms, code, h)
    ensures Concludes(Rfc7208, e, domain, sender, terms, RfcCode(TermsMeetVoid(e, domain, sender, terms, h), code), h)
    decreases h, 1
  {
    var last := Decider(AsCoded, e, domain, sender, terms, code, h);
    assert AllPass(AsCoded, e, domain, sender, terms, last, h);
    var k := RfcFront(e, domain, sender, terms, last, h);
    if k < |terms| {
      RfcTerm(e, domain, sender, terms[k], code, h);
      if !VoidInclude(e, domain, sender, terms[k], h) {
        DecidesUniquely(AsCoded, e, domain, sender, terms[k], code, code, h);
        assert !AllPass(AsCoded, e, domain, sender, terms, |terms|, h);
        assert !TermsMeetVoid(e, domain, sender, terms, h);
      }
    } else {
      var redirect := RedirectAfter(e, domain, sender, terms, |terms|);
      if redirect != "" {
        RfcReading(e, redirect, sender, code, h - 1);
      }
    }
  }

  lemma {:induction false} RfcTerm(e: Env, domain: string, sender: string, t: Term, code: Code, h: nat)
    ensures Passes(AsCoded, e, domain, sender, t, h) && !VoidInclude(e, domain, sender, t, h)
            ==> Passes(Rfc7208, e, domain, sender, t, h)
    ensures Decides(AsCoded, e, domain, sender, t, code, h) && !VoidInclude(e, domain, sender, t, h)
            ==> Decides(Rfc7208, e, domain, sender, t, code, h)
    ensures VoidInclude(e, domain, sender, t, h)
            && (Passes(AsCoded, e, domain, sender, t, h) || Decides(AsCoded, e, domain, sender, t, code, h))
            ==> Decides(Rfc7208, e, domain, sender, t, PermError, h)
    decreases h, 0, 0, 1
  {
    if t.mech.Include? {
      if Passes(AsCoded, e, domain, sender, t, h) {
        var r :| !Ends(AsCoded, r) && Included(AsCoded, e, domain, sender, t, r, h);
        RfcInclude(e, domain, sender, t, r, h);
      }
      if Decides(AsCoded, e, domain, sender, t, code, h) {
        var r :| Ends(AsCoded, r) && Included(AsCoded, e, domain, sender, t, r, h) && code == IncludeResult(t, r);
        RfcInclude(e, domain, sender, t, r, h);
      }
    }
  }

  /** An included policy under the two rules. */
  lemma {:induction false} RfcInclude(e: Env, domain: string, sender: string, t: Term, r: Code, h: nat)
    requires t.mech.Include? && Included(AsCoded, e, domain, sender, t, r, h)
    ensures if VoidInclude(e, domain, sender, t, h) then Decides(Rfc7208, e, domain, sender, t, PermError, h)
            else Included(Rfc7208, e, domain, sender, t, r, h) && r != NoRecord
    decreases h, 0, 0, 0
  {
    var name := IncludeTarget(e, domain, sender, t);
    RfcReading(e, name, sender, r, h - 1);
    if MeetsVoid(e, name, sender, h - 1) {
      assert Ends(Rfc7208, PermError) && Included(Rfc7208, e, domain, sender, t, PermError, h);
    } else if Means(AsCoded, e, name, sender, NoRecord, h - 1) {
      UniqueAt(AsCoded, e, name, sender, r, NoRecord, h - 1);
      assert Ends(Rfc7208, NoRecord) && Included(Rfc7208, e, domain, sender, t, NoRecord, h);
    }
  }

  /**
   The code gives what the rule of the RFC gives exactly when no void include is met, or the result is
   PermError anyway.
   */
  lemma ReadingsAgreeIffNoVoid(e: Env, domain: string, sender: string, code: Code, h: nat)
    requires Means(AsCoded, e, domain, sender, code, h)
    ensures Means(Rfc7208, e, domain, sender, code, h) <==> !MeetsVoid(e, domain, sender, h) || code == PermError
  {
    RfcReading(e, domain, sender, code, h);
    if Means(Rfc7208, e, domain, sender, code, h) {
      UniqueAt(Rfc7208, e, domain, sender, code, RfcCode(MeetsVoid(e, domain, sender, h), code), h);
    }
  }

  /** Once an `all` term lies ahead, no redirect read or yet to be read can change the outcome. */
  lemma {:induction false} AllStopsRedirect(e: Env, domain: string, sender: string, terms: seq<Term>, i: nat, j: nat,
                                            r1: string, r2: string, depth: nat, used: nat, limit: nat)
    requires used <= limit && i <= j < |terms| && terms[j].mech.All?
    ensures EvalTerms(e, domain, sender, terms, i, r1, depth, used, limit)
         == EvalTerms(e, domain, sender, terms, i, r2, depth, used, limit)
    decreases |terms| - i
  {
    if i < j {
      var m := terms[i].mech;
      if m.Include? {
        var sub := EvalCharged(e, IncludeTarget(e, domain, sender, terms[i]), sender, depth, used, limit);
        AllStopsRedirect(e, domain, sender, terms, i + 1, j, r1, r2, depth, sub.used, limit);
      } else {
        var p := ProbeTerm(e, domain, sender, m, used, limit);
        AllStopsRedirect(e, domain, sender, terms, i + 1, j, NextRedirect(e, domain, sender, m, r1),
                         NextRedirect(e, domain, sender, m, r2), depth, p.used, limit);
      }
    }
  }
}
