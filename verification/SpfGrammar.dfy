/** How SPF records are found and read (auth_checker/spf.py), from their texts on. */
module SpfGrammar {
  import opened Text
  import opened Spf
  import opened SpfSemantics

  // ---------- Words ----------

  lemma RunOfWord(word: string, rest: string)
    requires Only(word, NotSpace) && (rest == "" || IsSpace(rest[0]))
    ensures RunLength(word + rest, IsSpace) == |word|
  {
    var s, n := word + rest, RunLength(word + rest, IsSpace);
    assert forall i :: 0 <= i < |word| ==> s[i] == word[i];
    assert rest != "" ==> s[|word|] == rest[0];
  }

  lemma WordFirst(word: string, rest: string)
    requires word != "" && Only(word, NotSpace) && (rest == "" || IsSpace(rest[0]))
    ensures Words(word + rest) == [word] + Words(rest)
  {
    RunOfWord(word, rest);
    WordsFrom(word + rest, |word|);
    assert (word + rest)[..|word|] == word && (word + rest)[|word|..] == rest;
  }

  lemma WordsFrom(s: string, n: nat)
    requires s != "" && !IsSpace(s[0]) && n == RunLength(s, IsSpace)
    ensures Words(s) == [s[..n]] + Words(s[n..])
  {
  }

  /** A text may be cut before white space. */
  lemma {:induction false} WordsInParts(a: string, b: string)
    requires b == "" || IsSpace(b[0])
    ensures Words(a + b) == Words(a) + Words(b)
    decreases |a|
  {
    if a == "" {
      assert a + b == b;
    } else if IsSpace(a[0]) {
      WordsInParts(a[1..], b);
      Slices(a, b, 1);
      PartsAfterSpace(a, b, a + b, a[1..], a[1..] + b);
    } else {
      var n := RunLength(a, IsSpace);
      WordsInParts(a[n..], b);
      Slices(a, b, n);
      FirstWord(a, b, n);
      PartsAfterWord(a[..n], a[n..], a[n..] + b, a, a + b, Words(b));
    }
  }

  lemma PartsAfterSpace(a: string, b: string, whole: string, rest: string, more: string)
    requires a != "" && whole != "" && IsSpace(a[0]) && a[0] == whole[0] && rest == a[1..] && more == whole[1..]
    requires Words(more) == Words(rest) + Words(b)
    ensures Words(whole) == Words(a) + Words(b)
  {
  }

  lemma PartsAfterWord(word: string, rest: string, more: string, a: string, whole: string, words: seq<string>)
    requires word != "" && Only(word, NotSpace) && a == word + rest && whole == word + more
    requires (rest == "" || IsSpace(rest[0])) && (more == "" || IsSpace(more[0])) && Words(more) == Words(rest) + words
    ensures Words(whole) == Words(a) + words
  {
    WordFirst(word, rest);
    WordFirst(word, more);
    Assembled([word], Words(rest), words, Words(a), Words(more), Words(whole));
  }

  lemma Assembled(word: seq<string>, rest: seq<string>, words: seq<string>, a: seq<string>, more: seq<string>,
                  whole: seq<string>)
    requires a == word + rest && more == rest + words && whole == word + more
    ensures whole == a + words
  {
  }

  lemma FirstWord(a: string, b: string, n: nat)
    requires a != "" && !IsSpace(a[0]) && n == RunLength(a, IsSpace) && (b == "" || IsSpace(b[0]))
    ensures 0 < n && Only(a[..n], NotSpace) && (a[n..] == "" || IsSpace(a[n..][0]))
    ensures a[n..] + b == "" || IsSpace((a[n..] + b)[0])
  {
  }

  lemma Slices(a: string, b: string, n: nat)
    requires n <= |a|
    ensures a == a[..n] + a[n..] && a + b == a[..n] + (a[n..] + b) && (a + b)[n..] == a[n..] + b
  {
  }

  lemma SpaceFirst(rest: string)
    ensures Words(" " + rest) == Words(rest)
  {
    assert (" " + rest)[1..] == rest;
  }

  // ---------- Mechanisms and terms ----------

  /** How a mechanism is written. */
  function MechanismText(m: Mechanism): string {
    match m
    case All => "all"
    case Ip4(net) => "ip4:" + net
    case Ip6(net) => "ip6:" + net
    case Include(name) => "include:" + name
    case A(None) => "a"
    case A(Some(name)) => "a:" + name
    case Mx(None) => "mx"
    case Mx(Some(name)) => "mx:" + name
    case Exists(name) => "exists:" + name
    case Redirect(name) => "redirect=" + name
    case Unknown => ""
  }

  /** The name after `a:` or `mx:` ends at a slash. */
  predicate Writable(m: Mechanism) {
    match m
    case A(Some(name)) => '/' !in name
    case Mx(Some(name)) => '/' !in name
    case Unknown => false
    case _ => true
  }

  /** Reading a mechanism that was written gives it back. */
  lemma MechanismIsReadBack(m: Mechanism)
    requires Writable(m)
    ensures ParseMechanism(MechanismText(m)) == m
  {
    match m
    case All =>
    case Ip4(net) => NetworksAreRead(net);
    case Ip6(net) => NetworksAreRead(net);
    case Include(name) => IncludeIsRead(name);
    case A(host) => AIsRead(host);
    case Mx(host) => MxIsRead(host);
    case Exists(name) => ExistsIsRead(name);
    case Redirect(name) => RedirectIsRead(name);
  }

  lemma NetworksAreRead(net: string)
    ensures ParseMechanism("ip4:" + net) == Ip4(net) && ParseMechanism("ip6:" + net) == Ip6(net)
  {
    var four, six := "ip4:" + net, "ip6:" + net;
    assert four[..4] == "ip4:" && four[4..] == net;
    assert six[..4] == "ip6:" && six[2] == '6' && six[4..] == net;
  }

  lemma IncludeIsRead(name: string)
    ensures ParseMechanism("include:" + name) == Include(name)
  {
    var s := "include:" + name;
    assert s[0] == 'i' && s[1] == 'n' && s[8..] == name;
  }

  lemma ExistsIsRead(name: string)
    ensures ParseMechanism("exists:" + name) == Exists(name)
  {
    var s := "exists:" + name;
    assert s[0] == 'e' && s[7..] == name;
  }

  lemma RedirectIsRead(name: string)
    ensures ParseMechanism("redirect=" + name) == Redirect(name)
  {
    var s := "redirect=" + name;
    assert s[0] == 'r' && s == "redirect" + ['='] + name;
    PartitionOf("redirect", '=', name);
  }

  lemma AIsRead(host: Option<string>)
    requires host.Some? ==> '/' !in host.value
    ensures ParseMechanism(if host.Some? then "a:" + host.value else "a") == A(host)
  {
    if host.Some? {
      NamedA(host.value, "a:" + host.value);
    }
  }

  lemma NamedA(name: string, s: string)
    requires '/' !in name && s == "a:" + name
    ensures ParseMechanism(s) == A(Some(name))
  {
    assert s[..2] == "a:" && s[0] == 'a' && s[1] == ':';
    NameAfterColon("a", name, s);
  }

  lemma MxIsRead(host: Option<string>)
    requires host.Some? ==> '/' !in host.value
    ensures ParseMechanism(if host.Some? then "mx:" + host.value else "mx") == Mx(host)
  {
    if host.Some? {
      NamedMx(host.value, "mx:" + host.value);
    } else {
      var s := "mx";
      assert s[0] == 'm' && ':' !in s;
    }
  }

  lemma NamedMx(name: string, s: string)
    requires '/' !in name && s == "mx:" + name
    ensures ParseMechanism(s) == Mx(Some(name))
  {
    assert s[..3] == "mx:" && s[0] == 'm' && s[1] == 'x';
    NameAfterColon("mx", name, s);
  }

  lemma NameAfterColon(keyword: string, name: string, s: string)
    requires ':' !in keyword && '/' !in name && s == keyword + ":" + name
    ensures TargetName(s) == Some(name)
  {
    assert s == keyword + [':'] + name && s[|keyword|] == ':';
    PartitionOf(keyword, ':', name);
    PartitionAt(name, '/');
  }

  /** A prefix length after `a` or `mx` is read over. */
  lemma PrefixLengthIsIgnored(name: string, bits: string)
    requires '/' !in name && ':' !in bits
    ensures ParseMechanism("a:" + name + "/" + bits) == A(Some(name)) && ParseMechanism("a/" + bits) == A(None)
  {
    var s, t := "a:" + name + "/" + bits, "a/" + bits;
    assert s == "a" + [':'] + (name + ['/'] + bits) && s[0] == 'a' && s[1] == ':';
    PartitionOf("a", ':', name + ['/'] + bits);
    PartitionOf(name, '/', bits);
    assert t[0] == 'a' && t[1] == '/' && ':' !in t;
  }

  /** A qualifier is the first character of a term; without one, the term has '+'. */
  lemma TermIsReadBack(m: Mechanism)
    requires Writable(m)
    ensures ParseTerm(MechanismText(m)) == Term('+', m)
    ensures forall q :: q in "+-~?" ==> ParseTerm([q] + MechanismText(m)) == Term(q, m)
  {
    MechanismIsReadBack(m);
    var text := MechanismText(m);
    assert text != "" && !IsQualifier(text[0]);
    forall q | q in "+-~?"
      ensures ParseTerm([q] + text) == Term(q, m)
    {
      assert ([q] + text)[1..] == text;
    }
  }

  function TermText(t: Term): string {
    [t.qualifier] + MechanismText(t.mech)
  }

  ghost predicate Proper(t: Term) {
    Writable(t.mech) && t.qualifier in "+-~?" && Only(MechanismText(t.mech), NotSpace)
  }

  function TermsText(ts: seq<Term>): string {
    if ts == [] then "" else " " + (TermText(ts[0]) + TermsText(ts[1..]))
  }

  function TermWords(ts: seq<Term>): (words: seq<string>)
    ensures |words| == |ts|
  {
    if ts == [] then [] else [TermText(ts[0])] + TermWords(ts[1..])
  }

  lemma ProperParts(ts: seq<Term>)
    requires ts != [] && forall k :: 0 <= k < |ts| ==> Proper(ts[k])
    ensures forall k :: 0 <= k < |ts[1..]| ==> Proper(ts[1..][k])
    ensures TermText(ts[0]) != "" && Only(TermText(ts[0]), NotSpace)
  {
    assert Proper(ts[0]);
  }

  lemma {:induction false} WordsOfTerms(ts: seq<Term>)
    requires forall k :: 0 <= k < |ts| ==> Proper(ts[k])
    ensures Words(TermsText(ts)) == TermWords(ts)
  {
    if ts != [] {
      ProperParts(ts);
      WordsOfTerms(ts[1..]);
      TermsBeginWithSpace(ts[1..]);
      NextTerm(TermText(ts[0]), TermsText(ts[1..]));
    }
  }

  lemma NextTerm(word: string, rest: string)
    requires word != "" && Only(word, NotSpace) && (rest == "" || IsSpace(rest[0]))
    ensures Words(" " + (word + rest)) == [word] + Words(rest)
  {
    SpaceFirst(word + rest);
    WordFirst(word, rest);
  }

  lemma {:induction false} WordsAreParsed(ts: seq<Term>)
    requires forall k :: 0 <= k < |ts| ==> Proper(ts[k])
    ensures ParseTerms(TermWords(ts)) == ts
  {
    if ts != [] {
      var rest := ts[1..];
      WordsAreParsed(rest);
      assert Proper(ts[0]);
      TermIsReadBack(ts[0].mech);
      assert TermWords(ts)[1..] == TermWords(rest);
      forall k | 0 <= k < |ts|
        ensures ParseTerm(TermWords(ts)[k]) == ts[k]
      {
        if k > 0 {
          assert TermWords(ts)[k] == TermWords(rest)[k - 1];
          assert ParseTerms(TermWords(rest))[k - 1] == rest[k - 1];
        }
      }
    }
  }

  lemma TermsBeginWithSpace(ts: seq<Term>)
    ensures TermsText(ts) == "" || IsSpace(TermsText(ts)[0])
  {
    assert ts != [] ==> TermsText(ts)[0] == ' ';
  }

  /** Reading the record that was written for some terms, behind its version tag, gives the terms back. */
  lemma RecordIsReadBack(tag: string, ts: seq<Term>)
    requires tag != "" && Only(tag, NotSpace) && forall k :: 0 <= k < |ts| ==> Proper(ts[k])
    ensures Terms(tag + TermsText(ts)) == ts
  {
    WordsOfTerms(ts);
    WordsAreParsed(ts);
    TermsBeginWithSpace(ts);
    TagIsDropped(tag, TermsText(ts));
  }

  lemma TagIsDropped(tag: string, rest: string)
    requires tag != "" && Only(tag, NotSpace) && (rest == "" || IsSpace(rest[0]))
    ensures Terms(tag + rest) == ParseTerms(Words(rest))
  {
    WordFirst(tag, rest);
    var words := Words(rest);
    assert Drop([tag] + words, 1) == words;
  }

  // ---------- Which text is the record ----------

  /** Behind white space, a record starts with v=spf1 in any letter case. */
  lemma TagDecides(pad: string, tag: string, rest: string)
    requires Only(pad, IsSpace) && |tag| == 6 && !IsSpace(tag[0]) && !IsSpace(tag[5])
    ensures IsSpfRecord(pad + (tag + rest)) <==> Lower(tag) == "v=spf1"
  {
    StripLeftOf(pad, tag + rest, IsSpace);
    StripRightKeeps(tag, rest, IsSpace);
    var s := Strip(pad + (tag + rest));
    assert s == StripRight(tag + rest, IsSpace);
    assert s[..6] == tag && Lower(s)[..6] == Lower(tag);
  }

  ghost predicate OnlyRecord(txts: seq<string>, k: nat) {
    k < |txts| && IsSpfRecord(txts[k]) && forall j :: 0 <= j < |txts| && j != k ==> !IsSpfRecord(txts[j])
  }

  ghost predicate TwoRecords(txts: seq<string>, j: nat, k: nat) {
    j < k < |txts| && IsSpfRecord(txts[j]) && IsSpfRecord(txts[k])
  }

  lemma {:induction false} NoneIsRecord(txts: seq<string>)
    ensures SpfRecords(txts) == [] <==> forall k :: 0 <= k < |txts| ==> !IsSpfRecord(txts[k])
  {
    if txts != [] {
      NoneIsRecord(txts[1..]);
      assert forall k :: 0 < k < |txts| ==> txts[k] == txts[1..][k - 1];
    }
  }

  lemma {:induction false} OneIsRecord(txts: seq<string>, k: nat)
    requires OnlyRecord(txts, k)
    ensures SpfRecords(txts) == [txts[k]]
  {
    var rest := txts[1..];
    assert forall j :: 0 < j < |txts| ==> txts[j] == rest[j - 1];
    if k > 0 {
      assert !IsSpfRecord(txts[0]);
      OneIsRecord(rest, k - 1);
    } else {
      NoneIsRecord(rest);
    }
  }

  lemma {:induction false} TwoAreRecords(txts: seq<string>, j: nat, k: nat)
    requires TwoRecords(txts, j, k)
    ensures |SpfRecords(txts)| > 1
  {
    var rest := txts[1..];
    assert rest[k - 1] == txts[k];
    if j > 0 {
      assert rest[j - 1] == txts[j];
      TwoAreRecords(rest, j - 1, k - 1);
    } else {
      NoneIsRecord(rest);
    }
  }

  lemma NumberOfRecords(z: Zone, domain: string, txts: seq<string>)
    requires z.txt(domain) == Some(txts)
    ensures (forall k :: 0 <= k < |txts| ==> !IsSpfRecord(txts[k])) ==> FindSpfRecord(z, domain) == Missing
    ensures (exists j: nat, k: nat :: TwoRecords(txts, j, k)) ==> FindSpfRecord(z, domain) == Multiple
    ensures forall k: nat :: OnlyRecord(txts, k) ==> FindSpfRecord(z, domain) == Found(txts[k])
  {
    NoneIsRecord(txts);
    forall k: nat | OnlyRecord(txts, k)
      ensures SpfRecords(txts) == [txts[k]]
    {
      OneIsRecord(txts, k);
    }
    if j: nat, k: nat :| TwoRecords(txts, j, k) {
      TwoAreRecords(txts, j, k);
    }
  }

  lemma WithoutRecord(e: Env, domain: string, sender: string)
    ensures var o := EvalDomain(e, domain, sender, 0, 0, MAX_DNS_LOOKUPS);
            match FindSpfRecord(e.zone, domain)
            case Missing => o.code == NoRecord && o.used == 0
            case Multiple => o.code == PermError && o.used == 0
            case Found(_) => true
  {
  }

  /** One record is read; two are an error, none or a DNS error is no policy. */
  lemma RecordsDecide(e: Env, domain: string, sender: string, txts: seq<string>)
    ensures var o := EvalDomain(e, domain, sender, 0, 0, MAX_DNS_LOOKUPS);
            && (e.zone.txt(domain) == None ==> o.code == NoRecord && o.used == 0)
            && (e.zone.txt(domain) == Some(txts) ==>
                  && ((forall k :: 0 <= k < |txts| ==> !IsSpfRecord(txts[k])) ==> o.code == NoRecord && o.used == 0)
                  && ((exists j: nat, k: nat :: TwoRecords(txts, j, k)) ==> o.code == PermError && o.used == 0)
                  && (forall k: nat :: OnlyRecord(txts, k) ==> FindSpfRecord(e.zone, domain) == Found(txts[k])))
  {
    WithoutRecord(e, domain, sender);
    if e.zone.txt(domain) == Some(txts) {
      NumberOfRecords(e.zone, domain, txts);
    }
  }

  // ---------- The words that decide ----------

  /** The texts of a term that always matches, with what they come to. */
  predicate Answers(word: string, code: Code) {
    || (word == "-all" && code == Fail) || (word == "~all" && code == SoftFail) || (word == "?all" && code == Neutral)
    || (word in ["+all", "all"] && code == Pass)
  }

  lemma AnswerIsParsed(word: string, code: Code)
    requires Answers(word, code)
    ensures ParseTerm(word).mech == Spf.All && QualifierToResult(ParseTerm(word).qualifier) == code
    ensures word != "" && Only(word, NotSpace)
  {
    assert "-all"[1..] == "~all"[1..] == "?all"[1..] == "+all"[1..] == "all";
  }

  /** The terms of a record whose text goes on with a word and more. */
  lemma TermsGoOn(front: string, word: string, more: string)
    requires Words(front) != [] && word != "" && Only(word, NotSpace) && (more == "" || IsSpace(more[0]))
    ensures Terms(front + (" " + (word + more))) == Terms(front) + ([ParseTerm(word)] + ParseTerms(Words(more)))
  {
    WordsInParts(front, " " + (word + more));
    NextTerm(word, more);
    TermsOfWords(front + (" " + (word + more)), Words(front), [word] + Words(more));
    ParseOneMore(word, Words(more));
  }

  lemma TermsOfWords(text: string, a: seq<string>, b: seq<string>)
    requires Words(text) == a + b && a != []
    ensures Terms(text) == ParseTerms(Drop(a, 1)) + ParseTerms(b)
  {
    assert Drop(a + b, 1) == Drop(a, 1) + b;
  }

  lemma ParseOneMore(word: string, words: seq<string>)
    ensures ParseTerms([word] + words) == [ParseTerm(word)] + ParseTerms(words)
  {
  }

  lemma TaggedIsRecord(rest: string)
    ensures IsSpfRecord("v=spf1" + rest) && Words("v=spf1" + rest) != []
  {
    TagDecides("", "v=spf1", rest);
    assert "" + ("v=spf1" + rest) == "v=spf1" + rest;
    assert Lower("v=spf1") == "v=spf1";
    assert !IsSpace(("v=spf1" + rest)[0]);
  }

  /**
   When no term before it decides, a term that always matches gives the result by its qualifier:
   -all fails, ~all fails softly, ?all is neutral, +all and all pass.
   */
  lemma AllDecides(e: Env, domain: string, sender: string, terms: string, word: string, more: string, code: Code,
                   h: nat)
    requires Answers(word, code) && (more == "" || IsSpace(more[0]))
    requires e.zone.txt(domain) == Some(["v=spf1" + terms + (" " + (word + more))])
    requires Passed(e, domain, sender, "v=spf1" + terms, h)
    ensures Means(AsCoded, e, domain, sender, code, h)
    ensures var o := EvalDomain(e, domain, sender, 0, 0, MAX_DNS_LOOKUPS); !o.refused ==> o.code == code
  {
    var front := "v=spf1" + terms;
    OnlyText(e, domain, terms, " " + (word + more), front + (" " + (word + more)));
    AllInRecord(e, domain, sender, front, word, more, front + (" " + (word + more)), code, h);
    OnlyMeaning(e, domain, sender, code, h);
  }

  /** No term of the text decides. */
  ghost predicate Passed(e: Env, domain: string, sender: string, text: string, h: nat) {
    AllPass(AsCoded, e, domain, EffectiveSender(sender, domain), Terms(text), |Terms(text)|, h)
  }

  lemma AllInRecord(e: Env, domain: string, sender: string, front: string, word: string, more: string, text: string,
                    code: Code, h: nat)
    requires Answers(word, code) && (more == "" || IsSpace(more[0])) && text == front + (" " + (word + more))
    requires Words(front) != [] && FindSpfRecord(e.zone, domain) == Found(text) && Passed(e, domain, sender, front, h)
    ensures Means(AsCoded, e, domain, sender, code, h)
  {
    AnswerIsParsed(word, code);
    TermsGoOn(front, word, more);
    TermDecides(e, domain, EffectiveSender(sender, domain), Terms(front), ParseTerm(word), ParseTerms(Words(more)),
                Terms(text), h);
  }

  lemma OnlyMeaning(e: Env, domain: string, sender: string, code: Code, h: nat)
    requires Means(AsCoded, e, domain, sender, code, h)
    ensures var o := EvalDomain(e, domain, sender, 0, 0, MAX_DNS_LOOKUPS); !o.refused ==> o.code == code
  {
    if !EvalDomain(e, domain, sender, 0, 0, MAX_DNS_LOOKUPS).refused {
      UnrefusedRunIsFirstMatch(e, domain, sender, 0);
    }
  }

  lemma OnlyText(e: Env, domain: string, terms: string, rest: string, text: string)
    requires text == "v=spf1" + terms + rest && e.zone.txt(domain) == Some([text])
    ensures FindSpfRecord(e.zone, domain) == Found(text) && Words("v=spf1" + terms) != []
  {
    TaggedIsRecord(terms);
    TaggedIsRecord(terms + rest);
    assert text == "v=spf1" + (terms + rest);
    OneIsRecord([text], 0);
  }

  lemma TermDecides(e: Env, domain: string, sender: string, before: seq<Term>, t: Term, more: seq<Term>,
                    terms: seq<Term>, h: nat)
    requires t.mech == Spf.All && terms == before + ([t] + more)
    requires AllPass(AsCoded, e, domain, sender, before, |before|, h)
    ensures Concludes(AsCoded, e, domain, sender, terms, QualifierToResult(t.qualifier), h)
  {
    var n := |before|;
    assert terms[n] == t && forall j :: 0 <= j < n ==> terms[j] == before[j];
    assert AllPass(AsCoded, e, domain, sender, terms, n, h);
    assert Decides(AsCoded, e, domain, sender, terms[n], QualifierToResult(t.qualifier), h);
  }
}
