/** The caches over the domain-age and URL-reputation providers, content_analysis/caching.py. */
module Caching {
  import opened Text
  import opened Numbers
  import opened Decimal
  import opened TimedStore

  const UNKNOWN_AGE_TTL := 300
  const UNKNOWN_VERDICT_TTL := 120
  const NUL: char := 0 as char
  const CACHED := " (cached)"

  // ---------- Encodings ----------

  /** An unknown age is kept as the empty string. */
  function AgeText(age: Option<int>): string {
    if age.Some? then IntText(age.value) else ""
  }

  /** The outer None stands for the ValueError of a text that is no integer. */
  function AgeOf(text: string): Option<Option<int>> {
    if text == "" then Some(None)
    else
      var n := ParseInt(text);
      if n.Some? then Some(n) else None
  }

  lemma AgeRoundTrip(age: Option<int>)
    ensures AgeOf(AgeText(age)) == Some(age)
  {
    if age.Some? {
      IntRoundTrip(age.value);
    }
  }

  function VerdictText(verdict: string, source: string): string {
    verdict + [NUL] + source
  }

  /** `text.partition("\x00")` without the separator. */
  function VerdictOf(text: string): (string, string) {
    (Before(text, NUL), After(text, NUL))
  }

  /** The NUL-separated encoding is undone exactly when the verdict itself has no NUL. */
  lemma VerdictRoundTrip(verdict: string, source: string)
    ensures VerdictOf(VerdictText(verdict, source)) == (verdict, source) <==> (0 as char) !in verdict
  {
    PartitionAt(VerdictText(verdict, source), NUL);
    if NUL !in verdict {
      PartitionOf(verdict, NUL, source);
    }
  }

  // ---------- The providers ----------

  function AgeTtl(age: Option<int>, ttl: int): int {
    if age.None? then Min(UNKNOWN_AGE_TTL, ttl) else ttl
  }

  function VerdictTtl(verdict: string, ttl: int): int {
    if verdict != "unknown" then ttl else Min(UNKNOWN_VERDICT_TTL, ttl)
  }

  function AgeKey(domain: string): string {
    "domain_age:" + domain
  }

  function UrlKey(url: string): string {
    "url_reputation:" + url
  }

  /** What a lookup returns without asking the wrapped provider. */
  datatype Hit<T> = Miss | Answered(answer: T) | Corrupt

  function AgeHit(text: Option<string>): Hit<Option<int>> {
    if text.None? then Miss
    else
      var age := AgeOf(text.value);
      if age.Some? then Answered(age.value) else Corrupt
  }

  class CachedDomainAgeProvider {
    const store: InMemoryStore
    const ttlSeconds: int

    constructor (store: InMemoryStore, ttlSeconds: int)
      ensures this.store == store && this.ttlSeconds == ttlSeconds
    {
      this.store, this.ttlSeconds := store, ttlSeconds;
    }

    method Lookup(domain: string, now: real) returns (hit: Hit<Option<int>>)
      modifies store
      ensures (store.data, hit) == AgeLookup(old(store.data), domain, now)
    {
      var cached := store.Get("domain_age:" + domain, now);
      if cached.None? {
        return Miss;
      }
      if cached.value == "" {
        return Answered(None);
      }
      var n := ParseInt(cached.value);
      if n.None? {
        return Corrupt;
      }
      return Answered(n);
    }

    /** Keeps what the wrapped provider answered. */
    method Fill(domain: string, result: Option<int>, now: real)
      modifies store
      ensures store.data == AgeFill(old(store.data), domain, result, ttlSeconds, now)
    {
      if result.None? {
        store.Set("domain_age:" + domain, "", Some(Min(300, ttlSeconds)), now);
      } else {
        store.Set("domain_age:" + domain, IntText(result.value), Some(ttlSeconds), now);
      }
    }

    /** A whole call: on a miss the provider's answer, available at `later`, is kept and returned. */
    method GetDomainAgeDays(domain: string, now: real, wrapped: Option<int>, later: real) returns (r: Hit<Option<int>>)
      requires now <= later
      modifies store
      ensures var (data, hit) := AgeLookup(old(store.data), domain, now);
              if hit.Miss?
              then r == Answered(wrapped) && store.data == AgeFill(data, domain, wrapped, ttlSeconds, later)
              else r == hit && store.data == data
    {
      r := Lookup(domain, now);
      if r.Miss? {
        Fill(domain, wrapped, later);
        r := Answered(wrapped);
      }
    }
  }

  function AgeLookup(m: map<string, Entry>, domain: string, now: real): (map<string, Entry>, Hit<Option<int>>) {
    var (next, answer) := Lazy(m, Get(AgeKey(domain)), now);
    (next, AgeHit(answer.found))
  }

  function AgeFill(m: map<string, Entry>, domain: string, age: Option<int>, ttl: int, now: real): map<string, Entry> {
    Lazy(m, Set(AgeKey(domain), AgeText(age), Some(AgeTtl(age, ttl))), now).0
  }

  class CachedReputationProvider {
    const store: InMemoryStore
    const ttlSeconds: int

    constructor (store: InMemoryStore, ttlSeconds: int)
      ensures this.store == store && this.ttlSeconds == ttlSeconds
    {
      this.store, this.ttlSeconds := store, ttlSeconds;
    }

    method Lookup(url: string, now: real) returns (hit: Hit<(string, string)>)
      modifies store
      ensures (store.data, hit) == UrlLookup(old(store.data), url, now)
    {
      var cached := store.Get("url_reputation:" + url, now);
      if cached.None? {
        return Miss;
      }
      var (verdict, source) := VerdictOf(cached.value);
      return Answered((verdict, source + " (cached)"));
    }

    method Fill(url: string, verdict: string, source: string, now: real)
      modifies store
      ensures store.data == UrlFill(old(store.data), url, verdict, source, ttlSeconds, now)
    {
      var ttl := if verdict != "unknown" then ttlSeconds else Min(120, ttlSeconds);
      store.Set("url_reputation:" + url, VerdictText(verdict, source), Some(ttl), now);
    }

    method CheckUrl(url: string, now: real, verdict: string, source: string, later: real) returns (r: (string, string))
      requires now <= later
      modifies store
      ensures var (data, hit) := UrlLookup(old(store.data), url, now);
              if hit.Miss?
              then r == (verdict, source) && store.data == UrlFill(data, url, verdict, source, ttlSeconds, later)
              else hit == Answered(r) && store.data == data
    {
      var hit := Lookup(url, now);
      if hit.Miss? {
        Fill(url, verdict, source, later);
        return (verdict, source);
      }
      return hit.answer;
    }
  }

  function UrlHit(text: Option<string>): Hit<(string, string)> {
    if text.None? then Miss
    else var (verdict, source) := VerdictOf(text.value); Answered((verdict, source + CACHED))
  }

  function UrlLookup(m: map<string, Entry>, url: string, now: real): (map<string, Entry>, Hit<(string, string)>) {
    var (next, answer) := Lazy(m, Get(UrlKey(url)), now);
    (next, UrlHit(answer.found))
  }

  function UrlFill(m: map<string, Entry>, url: string, verdict: string, source: string, ttl: int, now: real)
    : map<string, Entry>
  {
    Lazy(m, Set(UrlKey(url), VerdictText(verdict, source), Some(VerdictTtl(verdict, ttl))), now).0
  }

  // ---------- One answer ----------

  /** Every domain and every URL has a key of its own. */
  lemma KeysAreApart(a: string, b: string)
    ensures AgeKey(a) == AgeKey(b) <==> a == b
    ensures UrlKey(a) == UrlKey(b) <==> a == b
    ensures AgeKey(a) != UrlKey(b)
  {
    assert AgeKey(a)[11..] == a && AgeKey(b)[11..] == b && UrlKey(a)[15..] == a && UrlKey(b)[15..] == b;
    assert AgeKey(a)[0] == 'd' && UrlKey(b)[0] == 'u';
  }

  /**
   An age is answered from the cache until its ttl has passed, but an unknown one for no more than
   300 seconds; other domains are not affected.
   */
  lemma AgeIsKept(m: map<string, Entry>, domain: string, age: Option<int>, ttl: int, now: real, later: real,
                  other: string)
    requires ttl > 0 && now <= later
    ensures var kept := if age.None? && ttl > 300 then 300 else ttl;
            var next := AgeFill(m, domain, age, ttl, now);
            && AgeLookup(next, domain, later).1 == (if later < now + kept as real then Answered(age) else Miss)
            && (other != domain ==> AgeLookup(next, other, later).1 == AgeLookup(m, other, later).1)
  {
    AgeRoundTrip(age);
    KeysAreApart(domain, other);
    SetIsReadUntil(m, AgeKey(domain), AgeText(age), Some(AgeTtl(age, ttl)), now, later, AgeKey(other));
  }

  /** The same for verdicts, an unknown one for no more than 120 seconds; the source is marked. */
  lemma VerdictIsKept(m: map<string, Entry>, url: string, verdict: string, source: string, ttl: int, now: real,
                      later: real, other: string)
    requires ttl > 0 && now <= later && (0 as char) !in verdict
    ensures var kept := if verdict == "unknown" && ttl > 120 then 120 else ttl;
            var next := UrlFill(m, url, verdict, source, ttl, now);
            && UrlLookup(next, url, later).1 ==
               (if later < now + kept as real then Answered((verdict, source + " (cached)")) else Miss)
            && (other != url ==> UrlLookup(next, other, later).1 == UrlLookup(m, other, later).1)
  {
    VerdictRoundTrip(verdict, source);
    KeysAreApart(url, other);
    SetIsReadUntil(m, UrlKey(url), VerdictText(verdict, source), Some(VerdictTtl(verdict, ttl)), now, later,
                   UrlKey(other));
  }

  // ---------- Whole runs over a shared store ----------

  /**
   A write to the watched key with its text and ttl, a read of it, or any operation on another
   key.  Lookups and fills of concurrent calls may interleave in any way.
   */
  datatype Event = Keep(now: real, text: string, ttl: int) | Read(now: real) | Foreign(now: real, op: Op)

  function Step(m: map<string, Entry>, key: string, e: Event): map<string, Entry> {
    match e
    case Keep(now, text, ttl) => Lazy(m, Set(key, text, Some(ttl)), now).0
    case Read(now) => Lazy(m, Get(key), now).0
    case Foreign(now, op) => Lazy(m, op, now).0
  }

  function RunAll(m: map<string, Entry>, key: string, events: seq<Event>): map<string, Entry>
    decreases |events|
  {
    if events == [] then m else Step(RunAll(m, key, events[..|events| - 1]), key, events[|events| - 1])
  }

  /** Foreign operations stay off the key, and no kept answer has the ttl 0 that means "forever". */
  ghost predicate Proper(events: seq<Event>, key: string) {
    forall i :: 0 <= i < |events| ==>
      match events[i] {
        case Foreign(_, op) => op.key != key
        case Keep(_, _, ttl) => ttl != 0
        case Read(_) => true
      }
  }

  /** The entry of the key, if it has one, is what the k-th event kept. */
  ghost predicate KeptBy(m: map<string, Entry>, key: string, events: seq<Event>, k: int) {
    && 0 <= k < |events| && events[k].Keep?
    && key in m && m[key] == Entry(events[k].text, Some(events[k].now + events[k].ttl as real))
  }

  lemma {:induction false} EntryWasKept(m: map<string, Entry>, key: string, events: seq<Event>)
    requires key !in m && Proper(events, key)
    ensures key in RunAll(m, key, events) ==> exists k :: KeptBy(RunAll(m, key, events), key, events, k)
    decreases |events|
  {
    if events != [] {
      var last := |events| - 1;
      var front := events[..last];
      assert forall i :: 0 <= i < last ==> front[i] == events[i];
      EntryWasKept(m, key, front);
      var before, after := RunAll(m, key, front), RunAll(m, key, events);
      if events[last].Keep? {
        assert KeptBy(after, key, events, last);
      } else {
        if events[last].Foreign? {
          OtherKeysUntouched(before, events[last].op, events[last].now, key);
        }
        if key in after {
          assert key in before && after[key] == before[key];
          var k :| KeptBy(before, key, front, k);
          assert KeptBy(after, key, events, k);
        }
      }
    }
  }

  /** Whatever a read returns was kept by an earlier event, less than that event's ttl ago. */
  lemma ReadIsRecent(m: map<string, Entry>, key: string, events: seq<Event>, now: real, text: string)
    requires key !in m && Proper(events, key)
    requires Lazy(RunAll(m, key, events), Get(key), now).1 == Value(Some(text))
    ensures exists k :: && 0 <= k < |events| && events[k].Keep? && events[k].text == text
                        && now < events[k].now + events[k].ttl as real
  {
    EntryWasKept(m, key, events);
    var k :| KeptBy(RunAll(m, key, events), key, events, k);
  }

  /** An answer that the wrapped provider gave for the watched domain or URL. */
  ghost predicate AgeKept(e: Event, age: Option<int>, ttl: int) {
    e.Keep? && e.text == AgeText(age) && e.ttl == AgeTtl(age, ttl)
  }

  ghost predicate VerdictKept(e: Event, verdict: string, source: string, ttl: int) {
    e.Keep? && e.text == VerdictText(verdict, source) && e.ttl == VerdictTtl(verdict, ttl)
  }

  /**
   Every cached age equals an answer the wrapped provider gave for the domain, kept less than
   that answer's ttl ago; a stored text is never taken for something else.
   */
  lemma CachedAgeIsRecentAnswer(m: map<string, Entry>, domain: string, events: seq<Event>, ttl: int, now: real)
    requires AgeKey(domain) !in m && Proper(events, AgeKey(domain))
    requires forall i :: 0 <= i < |events| && events[i].Keep? ==> exists age :: AgeKept(events[i], age, ttl)
    ensures var hit := AgeLookup(RunAll(m, AgeKey(domain), events), domain, now).1;
            && !hit.Corrupt?
            && (hit.Answered? ==> exists k :: 0 <= k < |events| && AgeKept(events[k], hit.answer, ttl)
                                           && now < events[k].now + AgeTtl(hit.answer, ttl) as real)
  {
    var key := AgeKey(domain);
    var answer := Lazy(RunAll(m, key, events), Get(key), now).1;
    if answer.found.Some? {
      ReadIsRecent(m, key, events, now, answer.found.value);
      var k :| 0 <= k < |events| && events[k].Keep? && events[k].text == answer.found.value
            && now < events[k].now + events[k].ttl as real;
      var age :| AgeKept(events[k], age, ttl);
      AgeRoundTrip(age);
    }
  }

  /** The same for verdicts, provided no kept verdict contains the separator. */
  lemma CachedVerdictIsRecentAnswer(m: map<string, Entry>, url: string, events: seq<Event>, ttl: int, now: real)
    requires UrlKey(url) !in m && Proper(events, UrlKey(url))
    requires forall i :: 0 <= i < |events| && events[i].Keep? ==>
               exists verdict, source :: VerdictKept(events[i], verdict, source, ttl) && NUL !in verdict
    ensures var hit := UrlLookup(RunAll(m, UrlKey(url), events), url, now).1;
            hit.Answered? ==> exists k, source :: 0 <= k < |events| && hit.answer.1 == source + CACHED
                                               && VerdictKept(events[k], hit.answer.0, source, ttl)
                                               && now < events[k].now + VerdictTtl(hit.answer.0, ttl) as real
  {
    var key := UrlKey(url);
    var answer := Lazy(RunAll(m, key, events), Get(key), now).1;
    if answer.found.Some? {
      ReadIsRecent(m, key, events, now, answer.found.value);
      var k :| 0 <= k < |events| && events[k].Keep? && events[k].text == answer.found.value
            && now < events[k].now + events[k].ttl as real;
      var verdict, source :| VerdictKept(events[k], verdict, source, ttl) && NUL !in verdict;
      VerdictRoundTrip(verdict, source);
    }
  }
}
