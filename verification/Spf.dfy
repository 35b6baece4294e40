/**
 SPF evaluation, auth_checker/spf.py.

 `Evaluate` is the recursive interpreter, with the lookup budget it shares through the
 recursion.  `EvalDomain` is its specification as a function of the budget already spent;
 the lemmas at the end bound what a run spends, asks and returns.
 */
module Spf {
  import opened Text

  const MAX_DNS_LOOKUPS: nat := 10
  const MAX_DEPTH: nat := 10

  datatype Code = Pass | Fail | SoftFail | Neutral | NoRecord | TempError | PermError

  /**
   A fixed resolver and the library functions the evaluator calls.  None stands for a DNS error
   (other than "no such name" and "no answer" for TXT, which give an empty list).
   `address` takes a name and whether AAAA records are wanted.
   */
  datatype Zone = Zone(
    txt: string -> Option<seq<string>>,
    address: (string, bool) -> Option<seq<string>>,
    mx: string -> Option<seq<string>>,
    inNetwork: (string, string, nat) -> bool,
    expand: (string, string, string, string) -> string)

  datatype Env = Env(zone: Zone, ip: string) {
    predicate V6() {
      ':' in ip
    }
  }

  // ---------- Records and terms ----------

  datatype Mechanism =
    | All
    | Ip4(net: string)
    | Ip6(net: string)
    | Include(name: string)
    | A(host: Option<string>)
    | Mx(host: Option<string>)
    | Exists(name: string)
    | Redirect(name: string)
    | Unknown

  datatype Term = Term(qualifier: char, mech: Mechanism)

  datatype Record = Multiple | Missing | Found(text: string)

  /** `s.split()` */
  function Words(s: string): seq<string>
    decreases |s|
  {
    if s == "" then []
    else if IsSpace(s[0]) then Words(s[1..])
    else
      var n := RunLength(s, IsSpace);
      [s[..n]] + Words(s[n..])
  }

  predicate IsSpfRecord(txt: string) {
    StartsWith(Lower(Strip(txt)), "v=spf1")
  }

  function SpfRecords(txts: seq<string>): seq<string> {
    if txts == [] then []
    else (if IsSpfRecord(txts[0]) then [txts[0]] else []) + SpfRecords(txts[1..])
  }

  function FindSpfRecord(z: Zone, domain: string): Record {
    match z.txt(domain)
    case None => Missing
    case Some(txts) =>
      var found := SpfRecords(txts);
      if |found| > 1 then Multiple else if |found| == 0 then Missing else Found(found[0])
  }

  function TargetName(mech: string): Option<string> {
    if ':' in mech then Some(Before(After(mech, ':'), '/')) else None
  }

  function ParseMechanism(mech: string): Mechanism {
    if mech == "all" then All
    else if StartsWith(mech, "ip4:") then Ip4(mech[4..])
    else if StartsWith(mech, "ip6:") then Ip6(mech[4..])
    else if StartsWith(mech, "include:") then Include(mech[8..])
    else if mech == "a" || StartsWith(mech, "a:") || StartsWith(mech, "a/") then A(TargetName(mech))
    else if mech == "mx" || StartsWith(mech, "mx:") || StartsWith(mech, "mx/") then Mx(TargetName(mech))
    else if StartsWith(mech, "exists:") then Exists(mech[7..])
    else if StartsWith(mech, "redirect=") then Redirect(After(mech, '='))
    else Unknown
  }

  predicate IsQualifier(c: char) {
    c == '+' || c == '-' || c == '~' || c == '?'
  }

  function ParseTerm(word: string): Term {
    if word != "" && IsQualifier(word[0]) then Term(word[0], ParseMechanism(word[1..]))
    else Term('+', ParseMechanism(word))
  }

  function ParseTerms(words: seq<string>): (r: seq<Term>)
    ensures |r| == |words|
  {
    seq(|words|, i requires 0 <= i < |words| => ParseTerm(words[i]))
  }

  /** The terms of a record; the version tag is dropped unread. */
  function Terms(record: string): seq<Term> {
    ParseTerms(Drop(Words(record), 1))
  }

  function QualifierToResult(q: char): Code {
    if q == '-' then Fail else if q == '~' then SoftFail else if q == '?' then Neutral else Pass
  }

  function EffectiveSender(sender: string, domain: string): string {
    if sender == "" then "user@" + domain else sender
  }

  function Target(e: Env, domain: string, sender: string, name: Option<string>): string {
    e.zone.expand(if name.Some? then name.value else domain, sender, domain, e.ip)
  }

  predicate IsDot(c: char) {
    c == '.'
  }

  function HostName(exchange: string): string {
    StripRight(exchange, IsDot)
  }

  predicate ResolveMatches(e: Env, target: string) {
    var answers := e.zone.address(target, e.V6());
    answers.Some? && e.ip in answers.value
  }

  // ---------- Budgeted evaluation as a function ----------

  /**
   What one evaluation yields: its result, the budget spent when it ends, whether any request
   to spend was refused, the resolver queries issued, and the deepest recursion it reached.
   */
  datatype Outcome = Outcome(code: Code, used: nat, refused: bool, queries: nat, deepest: nat) {
    function Then(next: Outcome): Outcome {
      Outcome(next.code, next.used, refused || next.refused, queries + next.queries,
              if deepest > next.deepest then deepest else next.deepest)
    }
  }

  datatype Verdict = Matched | NotMatched | Exhausted

  datatype Probe = Probe(verdict: Verdict, used: nat, refused: bool, queries: nat)

  function ProbeHosts(e: Env, hosts: seq<string>, used: nat, limit: nat): (p: Probe)
    requires used <= limit
    ensures used <= p.used <= limit && p.queries == p.used - used && !p.verdict.Exhausted?
    decreases |hosts|
  {
    if hosts == [] then Probe(NotMatched, used, false, 0)
    else if used == limit then Probe(NotMatched, used, true, 0)
    else if ResolveMatches(e, HostName(hosts[0])) then Probe(Matched, used + 1, false, 1)
    else
      var rest := ProbeHosts(e, hosts[1..], used + 1, limit);
      rest.(queries := rest.queries + 1)
  }

  function Verdictify(b: bool): Verdict {
    if b then Matched else NotMatched
  }

  /** One term that is not an include. */
  function ProbeTerm(e: Env, domain: string, sender: string, m: Mechanism, used: nat, limit: nat): (p: Probe)
    requires used <= limit && !m.Include?
    ensures used <= p.used <= limit && p.queries == p.used - used
    ensures p.verdict.Exhausted? ==> p.refused
  {
    match m
    case All => Probe(Matched, used, false, 0)
    case Ip4(net) => Probe(Verdictify(!e.V6() && e.zone.inNetwork(e.ip, net, 32)), used, false, 0)
    case Ip6(net) => Probe(Verdictify(e.V6() && e.zone.inNetwork(e.ip, net, 128)), used, false, 0)
    case A(name) =>
      if used == limit then Probe(Exhausted, used, true, 0)
      else Probe(Verdictify(ResolveMatches(e, Target(e, domain, sender, name))), used + 1, false, 1)
    case Mx(name) =>
      if used == limit then Probe(Exhausted, used, true, 0)
      else
        var hosts := e.zone.mx(Target(e, domain, sender, name));
        var p := ProbeHosts(e, if hosts.Some? then hosts.value else [], used + 1, limit);
        p.(queries := p.queries + 1)
    case Exists(name) =>
      if used == limit then Probe(Exhausted, used, true, 0)
      else
        var answers := e.zone.address(Target(e, domain, sender, Some(name)), false);
        Probe(Verdictify(answers.Some? && |answers.value| > 0), used + 1, false, 1)
    case Redirect(_) => Probe(NotMatched, used, false, 0)
    case Unknown => Probe(NotMatched, used, false, 0)
  }

  /** The redirect target after reading term m; a later one replaces an earlier one. */
  function NextRedirect(e: Env, domain: string, sender: string, m: Mechanism, redirect: string): string {
    if m.Redirect? then Target(e, domain, sender, Some(m.name)) else redirect
  }

  function EvalDomain(e: Env, domain: string, sender: string, depth: nat, used: nat, limit: nat): (o: Outcome)
    requires used <= limit
    ensures used <= o.used <= limit
    decreases limit - used, 2, 0
  {
    if depth > MAX_DEPTH then Outcome(PermError, used, false, 0, depth)
    else match FindSpfRecord(e.zone, domain)
      case Multiple => Outcome(PermError, used, false, 1, depth)
      case Missing => Outcome(NoRecord, used, false, 1, depth)
      case Found(text) =>
        Outcome(Neutral, used, false, 1, depth)
          .Then(EvalTerms(e, domain, EffectiveSender(sender, domain), Terms(text), 0, "", depth, used, limit))
  }

  /** Another domain's policy, for an include or a redirect: one lookup, one level deeper. */
  function EvalCharged(e: Env, name: string, sender: string, depth: nat, used: nat, limit: nat): (o: Outcome)
    requires used <= limit
    ensures used <= o.used <= limit
    decreases limit - used, 0, 0
  {
    if used == limit then Outcome(PermError, used, true, 0, depth)
    else EvalDomain(e, name, sender, depth + 1, used + 1, limit)
  }

  function EvalTerms(e: Env, domain: string, sender: string, terms: seq<Term>, i: nat, redirect: string,
                     depth: nat, used: nat, limit: nat): (o: Outcome)
    requires used <= limit && i <= |terms|
    ensures used <= o.used <= limit
    decreases limit - used, 1, |terms| - i
  {
    if i == |terms| then
      if redirect == "" then Outcome(Neutral, used, false, 0, depth)
      else EvalCharged(e, redirect, sender, depth, used, limit)
    else
      var q, m := terms[i].qualifier, terms[i].mech;
      if m.Include? then
        var sub := EvalCharged(e, Target(e, domain, sender, Some(m.name)), sender, depth, used, limit);
        if sub.code == Pass then sub.(code := QualifierToResult(q))
        else if sub.code == PermError then sub
        else sub.Then(EvalTerms(e, domain, sender, terms, i + 1, redirect, depth, sub.used, limit))
      else
        var p := ProbeTerm(e, domain, sender, m, used, limit);
        var code := if p.verdict.Matched? then QualifierToResult(q) else PermError;
        var here := Outcome(code, p.used, p.refused, p.queries, depth);
        if !p.verdict.NotMatched? then here
        else here.Then(EvalTerms(e, domain, sender, terms, i + 1, NextRedirect(e, domain, sender, m, redirect), depth,
                                 p.used, limit))
  }

  // ---------- The interpreter ----------

  class LookupBudget {
    const limit: nat
    var used: nat

    constructor (limit: nat)
      ensures this.limit == limit && used == 0
    {
      this.limit := limit;
      used := 0;
    }

    method Spend() returns (ok: bool)
      requires used <= limit
      modifies this`used
      ensures ok == (old(used) < limit)
      ensures used == old(used) + (if ok then 1 else 0)
    {
      if used >= limit {
        return false;
      }
      used := used + 1;
      return true;
    }
  }

  /** A resolver over a fixed zone that counts the queries put to it. */
  class Resolver {
    const env: Env
    var queries: nat

    constructor (env: Env)
      ensures this.env == env && queries == 0
    {
      this.env := env;
      queries := 0;
    }

    method FindRecord(domain: string) returns (r: Record)
      modifies this`queries
      ensures r == FindSpfRecord(env.zone, domain) && queries == old(queries) + 1
    {
      queries := queries + 1;
      r := FindSpfRecord(env.zone, domain);
    }

    method Address(name: string, v6: bool) returns (r: Option<seq<string>>)
      modifies this`queries
      ensures r == env.zone.address(name, v6) && queries == old(queries) + 1
    {
      queries := queries + 1;
      r := env.zone.address(name, v6);
    }

    method MailExchangers(name: string) returns (r: Option<seq<string>>)
      modifies this`queries
      ensures r == env.zone.mx(name) && queries == old(queries) + 1
    {
      queries := queries + 1;
      r := env.zone.mx(name);
    }

    method Matches(target: string) returns (b: bool)
      modifies this`queries
      ensures b == ResolveMatches(env, target) && queries == old(queries) + 1
    {
      var answers := Address(target, env.V6());
      b := answers.Some? && env.ip in answers.value;
    }
  }

  method MxMatches(resolver: Resolver, budget: LookupBudget, target: string) returns (b: bool)
    requires budget.used <= budget.limit
    modifies resolver`queries, budget`used
    ensures var hosts := resolver.env.zone.mx(target);
            var p := ProbeHosts(resolver.env, if hosts.Some? then hosts.value else [], old(budget.used), budget.limit);
            && b == p.verdict.Matched? && budget.used == p.used
            && resolver.queries == old(resolver.queries) + 1 + p.queries
  {
    var answers := resolver.MailExchangers(target);
    if answers.None? {
      return false;
    }
    var hosts := answers.value;
    ghost var start := budget.used;
    ghost var whole := ProbeHosts(resolver.env, hosts, start, budget.limit);
    for i := 0 to |hosts|
      invariant start <= budget.used <= budget.limit
      invariant resolver.queries == old(resolver.queries) + 1 + (budget.used - start)
      invariant var rest := ProbeHosts(resolver.env, hosts[i..], budget.used, budget.limit);
                rest.verdict == whole.verdict && rest.used == whole.used
    {
      var ok := budget.Spend();
      if !ok {
        return false;
      }
      var matched := resolver.Matches(HostName(hosts[i]));
      if matched {
        return true;
      }
      assert hosts[i..][1..] == hosts[i + 1..];
    }
    return false;
  }

  /** One term that is not an include. */
  method MatchTerm(resolver: Resolver, budget: LookupBudget, domain: string, sender: string, m: Mechanism)
    returns (v: Verdict)
    requires budget.used <= budget.limit && !m.Include?
    modifies resolver`queries, budget`used
    ensures var p := ProbeTerm(resolver.env, domain, sender, m, old(budget.used), budget.limit);
            v == p.verdict && budget.used == p.used && resolver.queries == old(resolver.queries) + p.queries
  {
    var e := resolver.env;
    match m {
      case All =>
        return Matched;
      case Ip4(net) =>
        return Verdictify(!e.V6() && e.zone.inNetwork(e.ip, net, 32));
      case Ip6(net) =>
        return Verdictify(e.V6() && e.zone.inNetwork(e.ip, net, 128));
      case A(name) =>
        var ok := budget.Spend();
        if !ok {
          return Exhausted;
        }
        var matched := resolver.Matches(Target(e, domain, sender, name));
        return Verdictify(matched);
      case Mx(name) =>
        var ok := budget.Spend();
        if !ok {
          return Exhausted;
        }
        var matched := MxMatches(resolver, budget, Target(e, domain, sender, name));
        return Verdictify(matched);
      case Exists(name) =>
        var ok := budget.Spend();
        if !ok {
          return Exhausted;
        }
        var answers := resolver.Address(Target(e, domain, sender, Some(name)), false);
        return Verdictify(answers.Some? && |answers.value| > 0);
      case Redirect(_) =>
        return NotMatched;
      case Unknown =>
        return NotMatched;
    }
  }

  method Evaluate(resolver: Resolver, budget: LookupBudget, domain: string, senderIn: string, depth: nat)
    returns (code: Code)
    requires budget.used <= budget.limit
    modifies resolver`queries, budget`used
    ensures var o := EvalDomain(resolver.env, domain, senderIn, depth, old(budget.used), budget.limit);
            code == o.code && budget.used == o.used && resolver.queries == old(resolver.queries) + o.queries
    decreases budget.limit - budget.used, 2
  {
    var e := resolver.env;
    if depth > MAX_DEPTH {
      return PermError;
    }
    var record := resolver.FindRecord(domain);
    if record.Multiple? {
      return PermError;
    }
    if record.Missing? {
      return NoRecord;
    }
    code := EvaluateTerms(resolver, budget, domain, EffectiveSender(senderIn, domain), Terms(record.text), depth);
  }

  method EvaluateCharged(resolver: Resolver, budget: LookupBudget, name: string, sender: string, depth: nat)
    returns (code: Code)
    requires budget.used <= budget.limit
    modifies resolver`queries, budget`used
    ensures var o := EvalCharged(resolver.env, name, sender, depth, old(budget.used), budget.limit);
            code == o.code && budget.used == o.used && resolver.queries == old(resolver.queries) + o.queries
    decreases budget.limit - budget.used, 0
  {
    var ok := budget.Spend();
    if !ok {
      return PermError;
    }
    code := Evaluate(resolver, budget, name, sender, depth + 1);
  }

  /** The loop over the terms of one record, and the redirect that may follow it. */
  method EvaluateTerms(resolver: Resolver, budget: LookupBudget, domain: string, sender: string, terms: seq<Term>,
                       depth: nat)
    returns (code: Code)
    requires budget.used <= budget.limit
    modifies resolver`queries, budget`used
    ensures var o := EvalTerms(resolver.env, domain, sender, terms, 0, "", depth, old(budget.used), budget.limit);
            code == o.code && budget.used == o.used && resolver.queries == old(resolver.queries) + o.queries
    decreases budget.limit - budget.used, 1
  {
    var e := resolver.env;
    var redirect := "";
    ghost var whole := EvalTerms(e, domain, sender, terms, 0, "", depth, budget.used, budget.limit);
    for i := 0 to |terms|
      invariant old(budget.used) <= budget.used <= budget.limit
      invariant var rest := EvalTerms(e, domain, sender, terms, i, redirect, depth, budget.used, budget.limit);
                rest.code == whole.code && rest.used == whole.used
                && resolver.queries - old(resolver.queries) + rest.queries == whole.queries
    {
      var q, m := terms[i].qualifier, terms[i].mech;
      if m.Include? {
        var sub := EvaluateCharged(resolver, budget, Target(e, domain, sender, Some(m.name)), sender, depth);
        if sub == Pass {
          return QualifierToResult(q);
        }
        if sub == PermError {
          return PermError;
        }
      } else {
        var v := MatchTerm(resolver, budget, domain, sender, m);
        if v.Matched? {
          return QualifierToResult(q);
        }
        if v.Exhausted? {
          return PermError;
        }
        redirect := NextRedirect(e, domain, sender, m, redirect);
      }
    }
    if redirect != "" {
      code := EvaluateCharged(resolver, budget, redirect, sender, depth);
      return;
    }
    return Neutral;
  }

  datatype SPFResult = SPFResult(code: Code, domain: string, ip: string, dnsLookupsUsed: nat)

  /** Returns the result and the number of queries the resolver saw. */
  method CheckSpf(e: Env, domain: string, sender: string) returns (r: SPFResult, queries: nat)
    ensures r.domain == domain && r.ip == e.ip
    ensures var o := EvalDomain(e, domain, sender, 0, 0, MAX_DNS_LOOKUPS);
            r.code == o.code && r.dnsLookupsUsed == o.used && !(o.deepest > MAX_DEPTH)
    ensures r.code != TempError
    ensures r.dnsLookupsUsed <= 10 && queries == 1 + r.dnsLookupsUsed
  {
    var resolver := new Resolver(e);
    var budget := new LookupBudget(MAX_DNS_LOOKUPS);
    var code := Evaluate(resolver, budget, domain, sender, 0);
    BoundedRun(e, domain, sender, 0, 0, MAX_DNS_LOOKUPS);
    r := SPFResult(code, domain, e.ip, budget.used);
    queries := resolver.queries;
  }

  // ---------- Accounting: depth, queries, result codes ----------

  /**
   As long as the recursion has cost at least one lookup per level and the limit is at most ten,
   the depth guard cannot fire and every query but the first has been paid for.
   */
  lemma {:induction false} BoundedRun(e: Env, domain: string, sender: string, depth: nat, used: nat, limit: nat)
    requires depth <= used <= limit <= MAX_DEPTH
    ensures var o := EvalDomain(e, domain, sender, depth, used, limit);
            o.deepest <= o.used && o.queries == 1 + (o.used - used) && o.code != TempError
    decreases limit - used, 2, 0
  {
    var record := FindSpfRecord(e.zone, domain);
    if record.Found? {
      BoundedTerms(e, domain, EffectiveSender(sender, domain), Terms(record.text), 0, "", depth, used, limit);
    }
  }

  lemma {:induction false} BoundedCharged(e: Env, name: string, sender: string, depth: nat, used: nat, limit: nat)
    requires depth <= used <= limit <= MAX_DEPTH
    ensures var o := EvalCharged(e, name, sender, depth, used, limit);
            o.deepest <= o.used && o.queries == o.used - used && o.code != TempError
    decreases limit - used, 0, 0
  {
    if used < limit {
      BoundedRun(e, name, sender, depth + 1, used + 1, limit);
    }
  }

  lemma {:induction false} BoundedTerms(e: Env, domain: string, sender: string, terms: seq<Term>, i: nat,
                                        redirect: string, depth: nat, used: nat, limit: nat)
    requires depth <= used <= limit <= MAX_DEPTH && i <= |terms|
    ensures var o := EvalTerms(e, domain, sender, terms, i, redirect, depth, used, limit);
            o.deepest <= o.used && o.queries == o.used - used && o.code != TempError
    decreases limit - used, 1, |terms| - i
  {
    if i == |terms| {
      BoundedCharged(e, redirect, sender, depth, used, limit);
    } else if terms[i].mech.Include? {
      var name := Target(e, domain, sender, Some(terms[i].mech.name));
      BoundedCharged(e, name, sender, depth, used, limit);
      var sub := EvalCharged(e, name, sender, depth, used, limit);
      BoundedTerms(e, domain, sender, terms, i + 1, redirect, depth, sub.used, limit);
    } else {
      var p := ProbeTerm(e, domain, sender, terms[i].mech, used, limit);
      BoundedTerms(e, domain, sender, terms, i + 1, NextRedirect(e, domain, sender, terms[i].mech, redirect), depth,
                   p.used, limit);
    }
  }
}
