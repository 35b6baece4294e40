/**
 What an SPF evaluation returns once its lookup budget is spent (auth_checker/spf.py).  A refused
 lookup ends the evaluation with PERMERROR, but a refusal among the hosts of an MX term only counts
 as "no match": the terms behind it are read on, with nothing left to spend.
 */
module SpfBudget {
  import opened Text
  import opened Spf
  import opened SpfSemantics
  import opened SpfGrammar

  /** The terms that spend a lookup as soon as they are read. */
  predicate NeedsLookup(m: Mechanism) {
    m.Include? || m.A? || m.Mx? || m.Exists?
  }

  /**
   The result of the terms from i on without a lookup to spend: the first free match, or the first term that
   needs one.
   */
  function FreeCode(e: Env, domain: string, sender: string, terms: seq<Term>, i: nat, redirect: string): Code
    requires i <= |terms|
    decreases |terms| - i
  {
    if i == |terms| then if redirect == "" then Neutral else PermError
    else if NeedsLookup(terms[i].mech) then PermError
    else if Matches(e, domain, sender, terms[i].mech) then QualifierToResult(terms[i].qualifier)
    else FreeCode(e, domain, sender, terms, i + 1, NextRedirect(e, domain, sender, terms[i].mech, redirect))
  }

  lemma {:induction false} SpentTerms(e: Env, domain: string, sender: string, terms: seq<Term>, i: nat,
                                      redirect: string, depth: nat, limit: nat)
    requires i <= |terms|
    ensures var o := EvalTerms(e, domain, sender, terms, i, redirect, depth, limit, limit);
            o.code == FreeCode(e, domain, sender, terms, i, redirect) && o.used == limit
    decreases |terms| - i
  {
    if i < |terms| && !NeedsLookup(terms[i].mech) {
      SpentTerms(e, domain, sender, terms, i + 1, NextRedirect(e, domain, sender, terms[i].mech, redirect), depth,
                 limit);
    }
  }

  // ---------- Runs whose first refusal is among the hosts of an MX term ----------

  /**
   None if the first refusal, if any, is not among the hosts of an MX term.  Otherwise what the
   terms behind that MX term come to, and behind the includes that led there.
   */
  function CutDomain(e: Env, domain: string, sender: string, depth: nat, used: nat, limit: nat): Option<Code>
    requires used <= limit
    decreases limit - used, 2, 0
  {
    var record := FindSpfRecord(e.zone, domain);
    if depth > MAX_DEPTH || !record.Found? then None
    else CutTerms(e, domain, EffectiveSender(sender, domain), Terms(record.text), 0, "", depth, used, limit)
  }

  function CutCharged(e: Env, name: string, sender: string, depth: nat, used: nat, limit: nat): Option<Code>
    requires used <= limit
    decreases limit - used, 0, 0
  {
    if used == limit then None else CutDomain(e, name, sender, depth + 1, used + 1, limit)
  }

  function CutTerms(e: Env, domain: string, sender: string, terms: seq<Term>, i: nat, redirect: string,
                    depth: nat, used: nat, limit: nat): Option<Code>
    requires used <= limit && i <= |terms|
    decreases limit - used, 1, |terms| - i
  {
    if i == |terms| then
      if redirect == "" then None else CutCharged(e, redirect, sender, depth, used, limit)
    else if terms[i].mech.Include? then
      var name := IncludeTarget(e, domain, sender, terms[i]);
      var sub := EvalCharged(e, name, sender, depth, used, limit);
      match CutCharged(e, name, sender, depth, used, limit)
      case Some(code) =>
        Some(if Ends(AsCoded, code) then IncludeResult(terms[i], code)
             else FreeCode(e, domain, sender, terms, i + 1, redirect))
      case None =>
        if Ends(AsCoded, sub.code) then None
        else CutTerms(e, domain, sender, terms, i + 1, redirect, depth, sub.used, limit)
    else
      var p := ProbeTerm(e, domain, sender, terms[i].mech, used, limit);
      var next := NextRedirect(e, domain, sender, terms[i].mech, redirect);
      if !p.verdict.NotMatched? then None
      else if p.refused then Some(FreeCode(e, domain, sender, terms, i + 1, next))
      else CutTerms(e, domain, sender, terms, i + 1, next, depth, p.used, limit)
  }

  /** How a run that has been cut, or refused otherwise, or neither, comes out. */
  ghost predicate EndsAsCut(o: Outcome, cut: Option<Code>, limit: nat) {
    match cut
    case Some(code) => o.refused && o.code == code && o.used == limit
    case None => o.refused ==> o.code == PermError
  }

  lemma {:induction false} RefusedHosts(e: Env, hosts: seq<string>, used: nat, limit: nat)
    requires used <= limit
    ensures var p := ProbeHosts(e, hosts, used, limit); p.refused ==> p.verdict.NotMatched? && p.used == limit
    decreases |hosts|
  {
    if hosts != [] && used < limit && !ResolveMatches(e, HostName(hosts[0])) {
      RefusedHosts(e, hosts[1..], used + 1, limit);
    }
  }

  lemma RefusedTerm(e: Env, domain: string, sender: string, m: Mechanism, used: nat, limit: nat)
    requires used <= limit && !m.Include?
    ensures var p := ProbeTerm(e, domain, sender, m, used, limit);
            p.refused ==> p.verdict.Exhausted? || (p.verdict.NotMatched? && p.used == limit)
  {
    if m.Mx? && used < limit {
      var hosts := e.zone.mx(Target(e, domain, sender, m.host));
      RefusedHosts(e, if hosts.Some? then hosts.value else [], used + 1, limit);
    }
  }

  /**
   A refused run returns PERMERROR unless its first refusal is among the hosts of an MX term;
   then it returns what the rest of the policy comes to without a lookup.
   */
  lemma {:induction false} RefusedUnlessCut(e: Env, domain: string, sender: string, depth: nat, used: nat, limit: nat)
    requires used <= limit
    ensures EndsAsCut(EvalDomain(e, domain, sender, depth, used, limit),
                      CutDomain(e, domain, sender, depth, used, limit), limit)
    decreases limit - used, 2, 0
  {
    var record := FindSpfRecord(e.zone, domain);
    if depth <= MAX_DEPTH && record.Found? {
      RefusedTerms(e, domain, EffectiveSender(sender, domain), Terms(record.text), 0, "", depth, used, limit);
    }
  }

  lemma {:induction false} RefusedCharged(e: Env, name: string, sender: string, depth: nat, used: nat, limit: nat)
    requires used <= limit
    ensures EndsAsCut(EvalCharged(e, name, sender, depth, used, limit),
                      CutCharged(e, name, sender, depth, used, limit), limit)
    decreases limit - used, 0, 0
  {
    if used < limit {
      RefusedUnlessCut(e, name, sender, depth + 1, used + 1, limit);
    }
  }

  lemma {:induction false} RefusedTerms(e: Env, domain: string, sender: string, terms: seq<Term>, i: nat,
                                        redirect: string, depth: nat, used: nat, limit: nat)
    requires used <= limit && i <= |terms|
    ensures EndsAsCut(EvalTerms(e, domain, sender, terms, i, redirect, depth, used, limit),
                      CutTerms(e, domain, sender, terms, i, redirect, depth, used, limit), limit)
    decreases limit - used, 1, |terms| - i
  {
    if i == |terms| {
      RefusedCharged(e, redirect, sender, depth, used, limit);
    } else if terms[i].mech.Include? {
      var name := IncludeTarget(e, domain, sender, terms[i]);
      var sub := EvalCharged(e, name, sender, depth, used, limit);
      RefusedCharged(e, name, sender, depth, used, limit);
      SpentTerms(e, domain, sender, terms, i + 1, redirect, depth, limit);
      RefusedTerms(e, domain, sender, terms, i + 1, redirect, depth, sub.used, limit);
    } else {
      var p := ProbeTerm(e, domain, sender, terms[i].mech, used, limit);
      var next := NextRedirect(e, domain, sender, terms[i].mech, redirect);
      RefusedTerm(e, domain, sender, terms[i].mech, used, limit);
      SpentTerms(e, domain, sender, terms, i + 1, next, depth, limit);
      RefusedTerms(e, domain, sender, terms, i + 1, next, depth, p.used, limit);
    }
  }

  /** So a refused check does not return PERMERROR exactly when it was cut, and something decides for free. */
  lemma RefusedButNoError(e: Env, domain: string, sender: string)
    ensures var o := EvalDomain(e, domain, sender, 0, 0, MAX_DNS_LOOKUPS);
            var cut := CutDomain(e, domain, sender, 0, 0, MAX_DNS_LOOKUPS);
            (o.refused && o.code != PermError <==> cut.Some? && cut.value != PermError)
            && (cut.Some? ==> o.code == cut.value && o.used == MAX_DNS_LOOKUPS)
  {
    RefusedUnlessCut(e, domain, sender, 0, 0, MAX_DNS_LOOKUPS);
  }

  // ---------- What lookups cost ----------

  /** Hosts that do not match cost one lookup each, until one is refused. */
  lemma {:induction false} HostsSpend(e: Env, hosts: seq<string>, used: nat, limit: nat)
    requires used <= limit && forall i :: 0 <= i < |hosts| ==> !ResolveMatches(e, HostName(hosts[i]))
    ensures var p := ProbeHosts(e, hosts, used, limit);
            && p.verdict.NotMatched? && (p.refused <==> used + |hosts| > limit)
            && p.used == if used + |hosts| > limit then limit else used + |hosts|
    decreases |hosts|
  {
    if hosts != [] && used < limit {
      HostsSpend(e, hosts[1..], used + 1, limit);
    }
  }

  const MX_THEN_ALL := "v=spf1 mx +all"

  lemma TwoTerms(tag: string, first: string, second: string, text: string)
    requires Only(tag, NotSpace) && Only(first, NotSpace) && Only(second, NotSpace)
    requires tag != "" && first != "" && second != "" && text == tag + (" " + (first + (" " + second)))
    ensures Terms(text) == [ParseTerm(first), ParseTerm(second)]
  {
    WordFirst(tag, "");
    assert tag + "" == tag;
    TermsGoOn(tag, first, " " + second);
    NoTerms(tag);
    LastTerm(" " + second, second);
  }

  lemma MxThenAllInParts(text: string)
    requires text == MX_THEN_ALL
    ensures text == "v=spf1" + (" " + ("mx" + (" " + "+all"))) && text == "v=spf1" + "" + " mx +all"
  {
  }

  lemma TermsOfMxThenAll(text: string)
    requires text == MX_THEN_ALL
    ensures Terms(text) == [Term('+', Mx(None)), Term('+', All)]
  {
    MxThenAllInParts(text);
    TwoTerms("v=spf1", "mx", "+all", text);
    ParsedTerms();
  }

  lemma NoTerms(tag: string)
    requires tag != "" && Only(tag, NotSpace)
    ensures Terms(tag) == []
  {
    TagIsDropped(tag, "");
    assert tag + "" == tag;
  }

  lemma LastTerm(more: string, word: string)
    requires word != "" && Only(word, NotSpace) && more == " " + word
    ensures ParseTerms(Words(more)) == [ParseTerm(word)]
  {
    NextTerm(word, "");
    assert word + "" == word;
    assert Words(more) == [word];
  }

  lemma ParsedTerms()
    ensures ParseTerm("mx") == Term('+', Mx(None)) && ParseTerm("+all") == Term('+', All)
  {
    TermIsReadBack(Mx(None));
    assert "+all"[1..] == "all";
  }

  /**
   With n hosts that do not match, "mx +all" passes after min(10, n + 1) lookups; from ten hosts
   on it has been refused one.
   */
  lemma MxThenAllPasses(e: Env, domain: string, sender: string, hosts: seq<string>)
    requires e.zone.txt(domain) == Some([MX_THEN_ALL])
    requires e.zone.mx(Target(e, domain, EffectiveSender(sender, domain), None)) == Some(hosts)
    requires forall i :: 0 <= i < |hosts| ==> !ResolveMatches(e, HostName(hosts[i]))
    ensures var o := EvalDomain(e, domain, sender, 0, 0, MAX_DNS_LOOKUPS);
            o.code == Pass && (o.refused <==> |hosts| >= 10) && o.used == if |hosts| >= 10 then 10 else 1 + |hosts|
  {
    MxThenAllIsRead(e, domain, MX_THEN_ALL);
    EvalByRecord(e, domain, sender, MX_THEN_ALL);
    MxThenAll(e, domain, EffectiveSender(sender, domain), Terms(MX_THEN_ALL), hosts);
  }

  lemma MxThenAllIsRead(e: Env, domain: string, text: string)
    requires text == MX_THEN_ALL && e.zone.txt(domain) == Some([text])
    ensures FindSpfRecord(e.zone, domain) == Found(text) && Terms(text) == [Term('+', Mx(None)), Term('+', All)]
  {
    MxThenAllInParts(text);
    TermsOfMxThenAll(text);
    OnlyText(e, domain, "", " mx +all", text);
  }

  lemma EvalByRecord(e: Env, domain: string, sender: string, text: string)
    requires FindSpfRecord(e.zone, domain) == Found(text)
    ensures var o := EvalDomain(e, domain, sender, 0, 0, MAX_DNS_LOOKUPS);
            var p := EvalTerms(e, domain, EffectiveSender(sender, domain), Terms(text), 0, "", 0, 0, MAX_DNS_LOOKUPS);
            o.code == p.code && o.used == p.used && o.refused == p.refused
  {
  }

  lemma MxThenAll(e: Env, domain: string, sender: string, terms: seq<Term>, hosts: seq<string>)
    requires terms == [Term('+', Mx(None)), Term('+', All)]
    requires e.zone.mx(Target(e, domain, sender, None)) == Some(hosts)
    requires forall i :: 0 <= i < |hosts| ==> !ResolveMatches(e, HostName(hosts[i]))
    ensures var o := EvalTerms(e, domain, sender, terms, 0, "", 0, 0, MAX_DNS_LOOKUPS);
            o.code == Pass && (o.refused <==> |hosts| >= 10) && o.used == if |hosts| >= 10 then 10 else 1 + |hosts|
  {
    HostsSpend(e, hosts, 1, MAX_DNS_LOOKUPS);
    var p := ProbeTerm(e, domain, sender, Mx(None), 0, MAX_DNS_LOOKUPS);
    FreeTermsDecide(e, domain, sender, terms, 1, 1, "", 0, p.used, MAX_DNS_LOOKUPS);
  }

  // ---------- Policies that need no lookup ----------

  /** Terms that need no lookup and do not match are passed over for nothing. */
  lemma {:induction false} FreeTermsDecide(e: Env, domain: string, sender: string, terms: seq<Term>, i: nat, n: nat,
                                           redirect: string, depth: nat, used: nat, limit: nat)
    requires used <= limit && i <= n < |terms| && terms[n].mech == All
    requires forall j :: i <= j < n ==> !NeedsLookup(terms[j].mech) && !Matches(e, domain, sender, terms[j].mech)
    ensures var o := EvalTerms(e, domain, sender, terms, i, redirect, depth, used, limit);
            o.code == QualifierToResult(terms[n].qualifier) && !o.refused && o.used == used
    decreases n - i
  {
    if i < n {
      FreeTermsDecide(e, domain, sender, terms, i + 1, n, NextRedirect(e, domain, sender, terms[i].mech, redirect),
                      depth, used, limit);
    }
  }

  /** If all terms before it are free and do not match, -all fails, ~all fails softly, and so on, without a lookup. */
  lemma FreePolicyDecides(e: Env, domain: string, sender: string, terms: string, word: string, more: string, code: Code)
    requires Answers(word, code) && (more == "" || IsSpace(more[0]))
    requires e.zone.txt(domain) == Some(["v=spf1" + terms + (" " + (word + more))])
    requires forall t :: t in Terms("v=spf1" + terms) ==>
               !NeedsLookup(t.mech) && !Matches(e, domain, EffectiveSender(sender, domain), t.mech)
    ensures var o := EvalDomain(e, domain, sender, 0, 0, MAX_DNS_LOOKUPS); o.code == code && !o.refused && o.used == 0
  {
    var front := "v=spf1" + terms;
    var text := front + (" " + (word + more));
    OnlyText(e, domain, terms, " " + (word + more), text);
    EvalByRecord(e, domain, sender, text);
    AnswerIsParsed(word, code);
    TermsGoOn(front, word, more);
    FreeTermsGoOn(e, domain, EffectiveSender(sender, domain), Terms(front), ParseTerm(word), ParseTerms(Words(more)),
                  Terms(text));
  }

  lemma FreeTermsGoOn(e: Env, domain: string, sender: string, before: seq<Term>, t: Term, more: seq<Term>,
                      terms: seq<Term>)
    requires t.mech == All && terms == before + ([t] + more)
    requires forall x :: x in before ==> !NeedsLookup(x.mech) && !Matches(e, domain, sender, x.mech)
    ensures var o := EvalTerms(e, domain, sender, terms, 0, "", 0, 0, MAX_DNS_LOOKUPS);
            o.code == QualifierToResult(t.qualifier) && !o.refused && o.used == 0
  {
    assert terms[|before|] == t && forall j :: 0 <= j < |before| ==> terms[j] == before[j];
    FreeTermsDecide(e, domain, sender, terms, 0, |before|, "", 0, 0, MAX_DNS_LOOKUPS);
  }

  /** The usual policy of one network: any IPv4 client outside it fails. */
  lemma OutsiderFails(e: Env, domain: string, sender: string, net: string)
    requires Only(net, NotSpace) && ':' !in e.ip
    requires e.zone.txt(domain) == Some(["v=spf1" + (" " + ("ip4:" + net)) + (" " + ("-all" + ""))])
    requires !e.zone.inNetwork(e.ip, net, 32)
    ensures EvalDomain(e, domain, sender, 0, 0, MAX_DNS_LOOKUPS).code == Fail
  {
    var word := "ip4:" + net;
    assert Only(word, NotSpace);
    TagIsDropped("v=spf1", " " + word);
    LastTerm(" " + word, word);
    TermIsReadBack(Ip4(net));
    assert MechanismText(Ip4(net)) == word;
    assert Terms("v=spf1" + (" " + word)) == [Term('+', Ip4(net))];
    FreePolicyDecides(e, domain, sender, " " + word, "-all", "", Fail);
  }

  // ---------- Defaults ----------

  /** Without a sender, the check is that of user@domain. */
  lemma EmptySenderIsUser(e: Env, domain: string, depth: nat, used: nat, limit: nat)
    requires used <= limit
    ensures EvalDomain(e, domain, "", depth, used, limit) == EvalDomain(e, domain, "user@" + domain, depth, used, limit)
  {
    assert EffectiveSender("", domain) == EffectiveSender("user@" + domain, domain);
  }

  /** A redirect alone hands the check to its target, for one lookup; of several, the last counts. */
  lemma RedirectHandsOver(e: Env, domain: string, sender: string, text: string, before: seq<Term>, q: char,
                          name: string)
    requires FindSpfRecord(e.zone, domain) == Found(text) && Terms(text) == before + [Term(q, Redirect(name))]
    requires forall t :: t in before ==> t.mech.Redirect?
    requires Target(e, domain, EffectiveSender(sender, domain), Some(name)) != ""
    ensures var from := EffectiveSender(sender, domain);
            EvalDomain(e, domain, sender, 0, 0, MAX_DNS_LOOKUPS).code ==
            EvalDomain(e, Target(e, domain, from, Some(name)), from, 1, 1, MAX_DNS_LOOKUPS).code
  {
    EvalByRecord(e, domain, sender, text);
    var terms := Terms(text);
    assert terms[|before|] == Term(q, Redirect(name)) && forall j :: 0 <= j < |before| ==> terms[j] in before;
    OnlyRedirects(e, domain, EffectiveSender(sender, domain), terms, 0, "", name);
  }

  lemma {:induction false} OnlyRedirects(e: Env, domain: string, sender: string, terms: seq<Term>, i: nat,
                                         redirect: string, name: string)
    requires i < |terms| && forall j :: 0 <= j < |terms| ==> terms[j].mech.Redirect?
    requires terms[|terms| - 1].mech == Redirect(name) && Target(e, domain, sender, Some(name)) != ""
    ensures EvalTerms(e, domain, sender, terms, i, redirect, 0, 0, MAX_DNS_LOOKUPS).code ==
            EvalDomain(e, Target(e, domain, sender, Some(name)), sender, 1, 1, MAX_DNS_LOOKUPS).code
    decreases |terms| - i
  {
    var next := NextRedirect(e, domain, sender, terms[i].mech, redirect);
    if i < |terms| - 1 {
      OnlyRedirects(e, domain, sender, terms, i + 1, next, name);
    } else {
      assert EvalTerms(e, domain, sender, terms, i + 1, next, 0, 0, MAX_DNS_LOOKUPS)
          == EvalCharged(e, next, sender, 0, 0, MAX_DNS_LOOKUPS);
    }
  }

  /** An IPv6 client is looked for among AAAA answers, an IPv4 one among A answers; a final dot of a host is dropped. */
  lemma AddressFamily(e: Env, name: string, dots: string)
    requires (name == "" || name[|name| - 1] != '.') && forall i :: 0 <= i < |dots| ==> dots[i] == '.'
    ensures ResolveMatches(e, HostName(name + dots)) <==>
            var answers := e.zone.address(name, ':' in e.ip); answers.Some? && e.ip in answers.value
  {
    StripRightOf(name, dots, IsDot);
  }

  /** The name of an a term is expanded for the sender, the domain and the client; without one, it is the domain. */
  lemma NameIsExpanded(e: Env, domain: string, sender: string, name: string)
    ensures Matches(e, domain, sender, A(Some(name))) <==>
            ResolveMatches(e, e.zone.expand(name, sender, domain, e.ip))
    ensures Matches(e, domain, sender, A(None)) <==> Matches(e, domain, sender, A(Some(domain)))
  {
  }

  /** Networks match clients of their own family only, a bare address only itself; exists asks for A records. */
  lemma FamiliesDoNotMix(e: Env, domain: string, sender: string, net: string, name: string)
    ensures Matches(e, domain, sender, Ip4(net)) <==> ':' !in e.ip && e.zone.inNetwork(e.ip, net, 32)
    ensures Matches(e, domain, sender, Ip6(net)) <==> ':' in e.ip && e.zone.inNetwork(e.ip, net, 128)
    ensures Matches(e, domain, sender, Exists(name)) <==>
            var answers := e.zone.address(e.zone.expand(name, sender, domain, e.ip), false);
            answers.Some? && answers.value != []
  {
  }

  /** Free terms that do not match, and no redirect: neutral. */
  lemma {:induction false} NothingDecides(e: Env, domain: string, sender: string, terms: seq<Term>, i: nat, depth: nat,
                                          used: nat, limit: nat)
    requires used <= limit && i <= |terms|
    requires forall j :: i <= j < |terms| ==>
               !NeedsLookup(terms[j].mech) && !terms[j].mech.Redirect? && !Matches(e, domain, sender, terms[j].mech)
    ensures EvalTerms(e, domain, sender, terms, i, "", depth, used, limit).code == Neutral
    decreases |terms| - i
  {
    if i < |terms| {
      NothingDecides(e, domain, sender, terms, i + 1, depth, used, limit);
    }
  }
}
