/**
 When rewriting the links of a text twice is rewriting them once (time_of_click/rewriter.py,
 rewrite_urls_in_text): the exact condition on the base URL that the replacements begin with.
 */
module LinkIdempotence {
  import opened Text
  import opened LinkScan

  // ---------- A base without delimiters ----------

  /** The pass leaves s as it is. */
  ghost predicate Stable(link: string -> string, s: string) {
    Rewrite(link, s) == Rewriting(s, [])
  }

  /** What the pass makes of s is left alone by the next pass. */
  ghost predicate Idempotent(link: string -> string, s: string) {
    Stable(link, Rewrite(link, s).text)
  }

  ghost predicate WordsAreStable(link: string -> string) {
    forall w :: Undelimited(w) ==> Idempotent(link, w)
  }

  /** If that is so of every word, it is so of every text. */
  lemma {:induction false} StableByWord(link: string -> string, s: string)
    requires WordsAreStable(link)
    ensures Idempotent(link, s) && (WordEnds(s) ==> WordEnds(Rewrite(link, s).text))
    decreases |s|
  {
    if s == "" {
    } else if Delimits(s[0]) {
      StableByWord(link, s[1..]);
      assert s == s[..1] + s[1..];
      StableAfterDelimiter(link, s[..1], s[1..], s);
    } else {
      var n := RunLength(s, Delimits);
      StableByWord(link, s[n..]);
      StableFromWord(link, s, n);
    }
  }

  lemma StableFromWord(link: string -> string, s: string, n: nat)
    requires WordsAreStable(link) && n == RunLength(s, Delimits)
    requires Idempotent(link, s[n..]) && (WordEnds(s[n..]) ==> WordEnds(Rewrite(link, s[n..]).text))
    ensures Idempotent(link, s)
  {
    assert s == s[..n] + s[n..];
    StableAfterWord(link, s[..n], s[n..], s);
  }

  lemma StableAfterDelimiter(link: string -> string, c: string, t: string, s: string)
    requires |c| == 1 && Delimits(c[0]) && s == c + t && Idempotent(link, t)
    ensures Idempotent(link, s) && WordEnds(Rewrite(link, s).text)
  {
    assert c == [c[0]];
    DelimiterFirst(link, c[0], t);
    DelimiterFirst(link, c[0], Rewrite(link, t).text);
  }

  lemma StableAfterWord(link: string -> string, w: string, t: string, s: string)
    requires Undelimited(w) && WordEnds(t) && s == w + t && WordEnds(Rewrite(link, t).text)
    requires Idempotent(link, w) && Idempotent(link, t)
    ensures Idempotent(link, s)
  {
    RewriteByWord(link, w, t);
    RewriteInParts(link, Rewrite(link, w).text, Rewrite(link, t).text);
  }

  /**
   Every replacement is the same base followed by a tail that begins with the marker, has no delimiter and
   has no colon.
   */
  ghost predicate MarksLinks(link: string -> string, base: string) {
    forall url :: MarkedLink(link(url), base)
  }

  ghost predicate MarkedLink(l: string, base: string) {
    exists tail :: l == base + tail && MarkedTail(tail)
  }

  ghost predicate MarkedTail(tail: string) {
    MARKER <= tail && Undelimited(tail) && ':' !in tail
  }

  lemma UrlHasColon(s: string)
    ensures UrlLength(s) > 0 ==> ':' in s
  {
    if StartsWith(s, "http://") {
      assert s[4] == ':';
    } else if StartsWith(s, "https://") {
      assert s[5] == ':';
    }
  }

  lemma MarkerInside(w: string, tail: string, j: nat)
    requires j <= |w| && w[j..] == tail && MARKER <= tail
    ensures Contains(w, MARKER)
  {
    assert w[j..j + |MARKER|] == w[j..][..|MARKER|] == MARKER;
    assert OccursAt(w, MARKER, j);
  }

  lemma NoUrlInTail(tail: string, j: nat, w: string)
    requires j <= |tail| && w == tail[j..] && ':' !in tail
    ensures UrlLength(w) == 0
  {
    UrlHasColon(w);
  }

  lemma SlicesFrom(front: string, tail: string, i: nat, w: string)
    requires i <= |front + tail| && w == (front + tail)[i..]
    ensures i >= |front| ==> w == tail[i - |front|..]
    ensures i <= |front| ==> w[|front| - i..] == tail
  {
  }

  /** A URL that starts in a replacement, or before it in the same word, covers the marker. */
  lemma UrlCoversMarker(front: string, tail: string, i: nat, w: string)
    requires i < |front + tail| && w == (front + tail)[i..] && MarkedTail(tail) && UrlLength(w) > 0
    ensures Contains(w, MARKER)
  {
    SlicesFrom(front, tail, i, w);
    if i > |front| {
      NoUrlInTail(tail, i - |front|, w);
    } else {
      MarkerInside(w, tail, |front| - i);
    }
  }

  /** A word that ends in a marked tail is left as it is. */
  lemma MarkedWordIsStable(link: string -> string, front: string, tail: string)
    requires Undelimited(front) && MarkedTail(tail)
    ensures Undelimited(front + tail) && Stable(link, front + tail)
  {
    var w := front + tail;
    var q := RewriteOfWord(link, w);
    if q < |w| {
      UrlCoversMarker(front, tail, q, w[q..]);
      assert w == w[..q] + w[q..];
    }
  }

  /** The leftmost URL of the word starts at p. */
  ghost predicate FirstUrl(w: string, p: nat) {
    p < |w| && UrlLength(w[p..]) > 0 && forall i :: 0 <= i < p ==> UrlLength(w[i..]) == 0
  }

  /** A word is left as it is, or its end, from its first URL on, is replaced. */
  lemma RewrittenWord(link: string -> string, w: string) returns (p: nat)
    requires Undelimited(w)
    ensures Rewrite(link, w) == Rewriting(w, []) || (FirstUrl(w, p) && Rewrite(link, w).text == w[..p] + link(w[p..]))
  {
    p := RewriteOfWord(link, w);
    if p < |w| && Contains(w[p..], MARKER) {
      assert w == w[..p] + w[p..];
    }
  }

  lemma PlacedLinkIsStable(link: string -> string, base: string, front: string, l: string)
    requires Undelimited(base) && Undelimited(front) && MarkedLink(l, base)
    ensures Stable(link, front + l)
  {
    var tail :| l == base + tail && MarkedTail(tail);
    assert front + l == (front + base) + tail;
    MarkedWordIsStable(link, front + base, tail);
  }

  /** A second pass finds nothing left to replace. */
  lemma RewriteIsIdempotent(link: string -> string, base: string, s: string)
    requires MarksLinks(link, base) && Undelimited(base)
    ensures Idempotent(link, s)
  {
    forall w | Undelimited(w)
      ensures Idempotent(link, w)
    {
      var p := RewrittenWord(link, w);
      if FirstUrl(w, p) {
        assert MarkedLink(link(w[p..]), base);
        PlacedLinkIsStable(link, base, w[..p], link(w[p..]));
      }
    }
    StableByWord(link, s);
  }

  // ---------- The exact condition on the base ----------

  /** The base up to and with its last delimiter. */
  function Head(base: string): (head: string)
    ensures head <= base && Undelimited(base[|head|..])
    ensures head == "" || Delimits(head[|head| - 1])
  {
    if base == "" || Delimits(base[|base| - 1]) then base
    else
      var front := base[..|base| - 1];
      assert base[|Head(front)|..] == front[|Head(front)|..] + [base[|base| - 1]];
      Head(front)
  }

  const BEGINNINGS: nat := 15

  /** The beginnings of a scheme, from the empty one to the last that is not the whole scheme. */
  function Beginning(k: nat): (q: string)
    requires k < BEGINNINGS
    ensures |q| <= 7
  {
    if k < 8 then "https://"[..k] else "http://"[..k - 8]
  }

  /** Even behind the beginning of a scheme, the pass replaces nothing in the head of the base. */
  predicate HeadSurvives(link: string -> string, head: string) {
    forall k: nat :: k < BEGINNINGS ==> Rewrite(link, Beginning(k) + head).links == []
  }

  lemma NoDelimiterInBeginning(k: nat)
    requires k < BEGINNINGS
    ensures Undelimited(Beginning(k))
    ensures forall i :: 0 < i < |Beginning(k)| ==> Beginning(k)[i] != 'h'
  {
  }

  /** A beginning by itself is too short for a URL. */
  lemma BeginningAlone(link: string -> string, k: nat)
    requires k < BEGINNINGS
    ensures Rewrite(link, Beginning(k)).links == []
  {
    NoDelimiterInBeginning(k);
    var p := RewriteOfWord(link, Beginning(k));
    assert p == |Beginning(k)|;
  }

  lemma EmptyHeadSurvives(link: string -> string, head: string)
    requires head == ""
    ensures HeadSurvives(link, head)
  {
    forall k: nat | k < BEGINNINGS
      ensures Rewrite(link, Beginning(k) + head).links == []
    {
      BeginningAlone(link, k);
      assert Beginning(k) + head == Beginning(k);
    }
  }

  lemma UrlNeedsH(s: string)
    requires UrlLength(s) > 0
    ensures s[0] == 'h'
  {
    assert StartsWith(s, "http://") || StartsWith(s, "https://");
  }

  /** Behind a beginning, the URL "http://x" is the first of its word. */
  lemma UrlBehindBeginning(k: nat)
    requires k < BEGINNINGS
    ensures var q := Beginning(k); Undelimited(q + "http://x") && FirstUrl(q + "http://x", |q|)
  {
    var q, w := Beginning(k), Beginning(k) + "http://x";
    NoDelimiterInBeginning(k);
    assert w[|q|..] == "http://x";
    PlainUrl();
    forall i | 0 <= i < |q|
      ensures UrlLength(w[i..]) == 0
    {
      if UrlLength(w[i..]) > 0 {
        UrlNeedsH(w[i..]);
        BeginningIsNoScheme(k, w);
      }
    }
  }

  lemma BeginningIsNoScheme(k: nat, w: string)
    requires k < BEGINNINGS && Beginning(k) != "" && w == Beginning(k) + "http://x"
    ensures SchemeLength(w) == 0
  {
    assert w[|Beginning(k)|] == 'h';
    if |Beginning(k)| == 7 {
      assert w[4] == 's';
    }
  }

  lemma PlainUrl()
    ensures UrlLength("http://x") > 0 && Undelimited("http://x") && !Contains("http://x", MARKER)
  {
    var url := "http://x";
    assert forall i :: 0 <= i < |url| ==> !Delimits(url[i]);
    assert RunLength(url, Delimits) == |url|;
  }

  lemma RewrittenFrom(link: string -> string, w: string, p: nat)
    requires Undelimited(w) && FirstUrl(w, p)
    ensures Rewrite(link, w) == Rewriting(w[..p], []).Then(ReplaceUrl(link, w[p..]))
  {
    var q := RewriteOfWord(link, w);
    assert q == p;
  }

  lemma BehindBeginning(link: string -> string, k: nat, url: string, w: string)
    requires k < BEGINNINGS && url == "http://x" && w == Beginning(k) + url
    ensures Rewrite(link, w).text == Beginning(k) + link(url)
  {
    UrlBehindBeginning(k);
    PlainUrl();
    RewrittenFrom(link, w, |Beginning(k)|);
    assert w[|Beginning(k)|..] == url && w[..|Beginning(k)|] == Beginning(k);
  }

  // ---------- A link behind some text ----------

  lemma LinksInParts(link: string -> string, a: string, b: string, s: string)
    requires s == a + b && CutsAtDelimiter(a, b)
    ensures Rewrite(link, s).links == [] <==> Rewrite(link, a).links == [] && Rewrite(link, b).links == []
  {
    RewriteInParts(link, a, b);
  }

  lemma StableIffNoLinks(link: string -> string, s: string)
    ensures Stable(link, s) <==> Rewrite(link, s).links == []
  {
    if Rewrite(link, s).links == [] {
      NoLinksNoChange(link, s);
    }
  }

  lemma HeadedParts(front: string, head: string, rest: string, tail: string)
    requires head != "" && Delimits(head[|head| - 1])
    ensures CutsAtDelimiter(front + head, rest + tail)
    ensures front + ((head + rest) + tail) == (front + head) + (rest + tail)
  {
  }

  /** A link behind some text is left alone exactly when the head of its base is. */
  lemma HeadedLink(link: string -> string, base: string, front: string, l: string)
    requires MarkedLink(l, base) && Head(base) != ""
    ensures Stable(link, front + l) <==> Rewrite(link, front + Head(base)).links == []
  {
    var head, rest := Head(base), base[|Head(base)|..];
    var tail :| l == base + tail && MarkedTail(tail);
    assert base == head + rest;
    HeadedParts(front, head, rest, tail);
    MarkedWordIsStable(link, rest, tail);
    LinksInParts(link, front + head, rest + tail, front + l);
    StableIffNoLinks(link, front + l);
  }

  lemma HeadedAgain(link: string -> string, base: string, k: nat, l: string)
    requires MarkedLink(l, base) && k < BEGINNINGS && Rewrite(link, Beginning(k) + Head(base)).links != []
    ensures !Stable(link, Beginning(k) + l)
  {
    if Head(base) == "" {
      EmptyHeadSurvives(link, Head(base));
    } else {
      HeadedLink(link, base, Beginning(k), l);
    }
  }

  /** A beginning behind which the head has a URL of its own leads to a text that the second pass changes. */
  lemma HeadIsRewrittenAgain(link: string -> string, base: string, k: nat, url: string, w: string)
    requires MarkedLink(link(url), base) && k < BEGINNINGS && Rewrite(link, Beginning(k) + Head(base)).links != []
    requires url == "http://x" && w == Beginning(k) + url
    ensures !Idempotent(link, w)
  {
    BehindBeginning(link, k, url, w);
    HeadedAgain(link, base, k, link(url));
  }

  lemma PrefixInside(p: string, x: string, y: string)
    requires p <= x + y
    ensures |p| <= |x| ==> p <= x
  {
  }

  lemma ShortBeginning(scheme: string, x: string, first: string)
    requires scheme <= x + first && !(scheme <= x)
    ensures |x| < |scheme| && x == scheme[..|x|]
  {
    PrefixInside(scheme, x, first);
    assert x == (x + first)[..|x|];
  }

  lemma PrefixStays(p: string, x: string, y: string)
    ensures p <= x ==> p <= x + y
  {
  }

  lemma NoSchemeInside(x: string, y: string)
    requires Undelimited(x + y) && y != "" && UrlLength(x + y) == 0
    ensures !("http://" <= x) && !("https://" <= x)
  {
    RunOfWord(x + y, "");
    assert (x + y) + "" == x + y;
    PrefixStays("http://", x, y);
    PrefixStays("https://", x, y);
  }

  /** A URL that begins with x, but not if something else follows x, begins with the beginning of a scheme. */
  lemma StraddlingUrl(x: string, y: string, first: string) returns (k: nat)
    requires Undelimited(x + y) && y != "" && UrlLength(x + y) == 0 && UrlLength(x + first) > 0
    ensures k < BEGINNINGS && x == Beginning(k)
  {
    NoSchemeInside(x, y);
    k := if "http://" <= x + first then 8 + |x| else |x|;
    ShortBeginning(if "http://" <= x + first then "http://" else "https://", x, first);
  }

  /** What the head replaces nothing in, begun or not, it does not replace behind the rest of a word either. */
  lemma FirstWordSurvives(link: string -> string, w: string, p: nat, first: string, i: nat)
    requires Undelimited(w) && FirstUrl(w, p) && Undelimited(first) && FirstUrl(w[..p] + first, i)
    requires BeginningsKept(link, first)
    ensures Contains((w[..p] + first)[i..], MARKER)
  {
    if i >= p {
      LaterUrl(w, p, first, i);
      LaterUrlIsMarked(link, first, i - p);
    } else {
      var k := EarlierUrl(w, p, first, i);
      BegunUrlIsMarked(link, k, first, (w[..p] + first)[i..]);
    }
  }

  lemma LaterUrl(w: string, p: nat, first: string, i: nat)
    requires p <= i && p <= |w| && FirstUrl(w[..p] + first, i)
    ensures (w[..p] + first)[i..] == first[i - p..] && FirstUrl(first, i - p)
  {
    var whole := w[..p] + first;
    assert forall j :: 0 <= j <= i - p ==> first[j..] == whole[p + j..];
  }

  lemma SlicesAround(w: string, p: nat, first: string, i: nat)
    requires i <= p <= |w|
    ensures (w[..p] + first)[i..] == w[i..p] + first && w[i..] == w[i..p] + w[p..]
  {
  }

  lemma EarlierUrl(w: string, p: nat, first: string, i: nat) returns (k: nat)
    requires Undelimited(w) && FirstUrl(w, p) && i < p && FirstUrl(w[..p] + first, i)
    ensures k < BEGINNINGS && (w[..p] + first)[i..] == Beginning(k) + first
  {
    SlicesAround(w, p, first, i);
    k := StraddlingUrl(w[i..p], w[p..], first);
  }

  predicate BeginningsKept(link: string -> string, first: string) {
    forall k: nat :: k < BEGINNINGS ==> Rewrite(link, Beginning(k) + first).links == []
  }

  lemma LaterUrlIsMarked(link: string -> string, first: string, j: nat)
    requires Undelimited(first) && FirstUrl(first, j) && BeginningsKept(link, first)
    ensures Contains(first[j..], MARKER)
  {
    assert Rewrite(link, Beginning(0) + first).links == [];
    assert Beginning(0) + first == first;
    RewrittenFrom(link, first, j);
  }

  lemma BegunUrlIsMarked(link: string -> string, k: nat, first: string, url: string)
    requires k < BEGINNINGS && url == Beginning(k) + first && Undelimited(first) && UrlLength(url) > 0
    requires BeginningsKept(link, first)
    ensures Contains(url, MARKER)
  {
    NoDelimiterInBeginning(k);
    RewriteOfUrl(link, url);
  }

  lemma BeginningsSurvive(link: string -> string, first: string, rest: string, head: string)
    requires Undelimited(first) && WordEnds(rest) && head == first + rest && HeadSurvives(link, head)
    ensures BeginningsKept(link, first) && Rewrite(link, rest).links == []
  {
    forall k: nat | k < BEGINNINGS
      ensures Rewrite(link, Beginning(k) + first).links == [] && Rewrite(link, rest).links == []
    {
      assert Rewrite(link, Beginning(k) + head).links == [];
      assert Beginning(k) + head == (Beginning(k) + first) + rest;
      LinksInParts(link, Beginning(k) + first, rest, Beginning(k) + head);
    }
    assert Rewrite(link, Beginning(0) + first).links == [] && Rewrite(link, rest).links == [];
  }

  lemma UnreplacedWord(link: string -> string, w: string, p: nat, first: string)
    requires Undelimited(w) && FirstUrl(w, p) && Undelimited(first) && BeginningsKept(link, first)
    ensures Rewrite(link, w[..p] + first).links == []
  {
    var i := RewriteOfWord(link, w[..p] + first);
    if i < |w[..p] + first| {
      FirstWordSurvives(link, w, p, first, i);
    }
  }

  /** A surviving head also survives behind whatever part of a word precedes a replaced URL. */
  lemma PlacedHeadSurvives(link: string -> string, head: string, w: string, p: nat)
    requires HeadSurvives(link, head) && Undelimited(w) && FirstUrl(w, p)
    ensures Rewrite(link, w[..p] + head).links == []
  {
    var first, rest := FirstWordOf(w[..p], head);
    BeginningsSurvive(link, first, rest, head);
    UnreplacedWord(link, w, p, first);
    LinksInParts(link, w[..p] + first, rest, w[..p] + head);
  }

  lemma FirstWordOf(front: string, head: string) returns (first: string, rest: string)
    ensures Undelimited(first) && WordEnds(rest) && head == first + rest && front + head == (front + first) + rest
  {
    var n := RunLength(head, Delimits);
    first, rest := head[..n], head[n..];
    assert head == first + rest;
  }

  lemma HeadedWordIsStable(link: string -> string, base: string, w: string)
    requires MarksLinks(link, base) && HeadSurvives(link, Head(base)) && Undelimited(w)
    ensures Idempotent(link, w)
  {
    var p := RewrittenWord(link, w);
    if FirstUrl(w, p) {
      assert MarkedLink(link(w[p..]), base);
      if Head(base) == "" {
        PlacedLinkIsStable(link, base, w[..p], link(w[p..]));
      } else {
        PlacedHeadSurvives(link, Head(base), w, p);
        HeadedLink(link, base, w[..p], link(w[p..]));
      }
    }
  }

  lemma HeadedTextIsStable(link: string -> string, base: string, s: string)
    requires MarksLinks(link, base) && HeadSurvives(link, Head(base))
    ensures Idempotent(link, s)
  {
    forall w | Undelimited(w)
      ensures Idempotent(link, w)
    {
      HeadedWordIsStable(link, base, w);
    }
    StableByWord(link, s);
  }

  lemma SomeTextIsRewrittenAgain(link: string -> string, base: string, k: nat) returns (s: string)
    requires MarksLinks(link, base) && k < BEGINNINGS && Rewrite(link, Beginning(k) + Head(base)).links != []
    ensures !Idempotent(link, s)
  {
    var url := "http://x";
    s := Beginning(k) + url;
    assert MarkedLink(link(url), base);
    HeadIsRewrittenAgain(link, base, k, url, s);
  }

  /** Rewriting any text twice is rewriting it once exactly when the head of the base survives a pass. */
  lemma IdempotentIffHeadSurvives(link: string -> string, base: string)
    requires MarksLinks(link, base)
    ensures (forall s :: Idempotent(link, s)) <==> HeadSurvives(link, Head(base))
  {
    if HeadSurvives(link, Head(base)) {
      forall s
        ensures Idempotent(link, s)
      {
        HeadedTextIsStable(link, base, s);
      }
    } else {
      var k: nat :| k < BEGINNINGS && Rewrite(link, Beginning(k) + Head(base)).links != [];
      var s := SomeTextIsRewrittenAgain(link, base, k);
    }
  }

  /** Of the bases that are URLs to the scan and have no marker of their own, just those without a delimiter qualify. */
  lemma UrlHeadSurvivesIff(link: string -> string, base: string)
    requires UrlLength(base) > 0 && !Contains(base[..UrlLength(base)], MARKER)
    ensures HeadSurvives(link, Head(base)) <==> Undelimited(base)
  {
    var head := Head(base);
    if Undelimited(base) {
      EmptyHeadSurvives(link, head);
    } else {
      DelimitedUrl(base);
      var front, rest := base[..UrlLength(base)], head[UrlLength(base)..];
      RewriteOfUrl(link, front);
      LinksInParts(link, front, rest, head);
      assert Beginning(0) + head == head;
    }
  }

  lemma DelimitedUrl(base: string)
    requires UrlLength(base) > 0 && !Undelimited(base)
    ensures var n := UrlLength(base);
            && n <= |Head(base)| && Head(base) == base[..n] + Head(base)[n..] && WordEnds(Head(base)[n..])
            && Undelimited(base[..n]) && UrlLength(base[..n]) > 0
  {
    var n := UrlLength(base);
    assert base == base[..n] + base[n..];
    UrlOfWord(base[..n], base[n..]);
    HeadReachesDelimiter(base, Head(base), n);
  }

  lemma HeadReachesDelimiter(base: string, head: string, n: nat)
    requires head <= base && Undelimited(base[|head|..]) && n < |base| && Delimits(base[n])
    ensures n < |head| && head == base[..n] + head[n..] && WordEnds(head[n..])
  {
    var rest := base[|head|..];
    assert forall j :: |head| <= j < |base| ==> base[j] == rest[j - |head|];
    assert head == base[..|head|];
  }
  lemma {:induction false} NoUrlNoLinks(link: string -> string, s: string)
    requires forall i :: 0 <= i < |s| ==> UrlLength(s[i..]) == 0
    ensures Rewrite(link, s).links == []
  {
    if s != "" {
      assert s[0..] == s && forall i :: 0 <= i < |s| - 1 ==> s[1..][i..] == s[i + 1..];
      NoUrlNoLinks(link, s[1..]);
    }
  }

  /** A base without a slash always qualifies: behind a beginning, which has at most one, no scheme is completed. */
  lemma SlashlessHeadSurvives(link: string -> string, head: string)
    requires '/' !in head
    ensures HeadSurvives(link, head)
  {
    forall k: nat | k < BEGINNINGS
      ensures Rewrite(link, Beginning(k) + head).links == []
    {
      var s := Beginning(k) + head;
      forall i | 0 <= i < |s|
        ensures UrlLength(s[i..]) == 0
      {
        OneSlash(k, head, s, i);
      }
      NoUrlNoLinks(link, s);
    }
  }

  lemma OneSlash(k: nat, head: string, s: string, i: nat)
    requires k < BEGINNINGS && '/' !in head && s == Beginning(k) + head && i < |s|
    ensures UrlLength(s[i..]) == 0
  {
    assert forall j :: 0 <= j < |s| - 1 ==> !(s[j] == '/' && s[j + 1] == '/');
    TwoSlashes(s[i..], s, i);
  }

  lemma TwoSlashes(t: string, s: string, i: nat)
    requires i < |s| && t == s[i..] && forall j :: 0 <= j < |s| - 1 ==> !(s[j] == '/' && s[j + 1] == '/')
    ensures UrlLength(t) == 0
  {
    SlashesOfScheme(t);
    assert forall j :: 0 <= j < |t| ==> t[j] == s[i + j];
  }

  lemma SlashesOfScheme(t: string)
    ensures var n := SchemeLength(t); n > 0 ==> 2 <= n <= |t| && t[n - 2] == '/' && t[n - 1] == '/'
  {
  }

  /** A base that is no URL by itself can be one behind a beginning. */
  lemma BeginningCompletesHead(link: string -> string)
    ensures UrlLength("//h ") == 0 && !HeadSurvives(link, "//h ")
  {
    var head, front := "//h ", "http://h";
    assert head[0] != 'h';
    assert forall i :: 0 <= i < |front| ==> !Delimits(front[i]);
    assert RunLength(front, Delimits) == |front|;
    RewriteOfUrl(link, front);
    assert !Contains(front, MARKER);
    assert Beginning(13) == "http:";
    assert Beginning(13) + head == front + " ";
    LinksInParts(link, front, " ", Beginning(13) + head);
  }
}
