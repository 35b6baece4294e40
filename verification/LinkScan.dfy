/**
 The left-to-right scan that replaces every URL matched by https?://[^\s<>"']+ in a text,
 whatever a URL is replaced with (time_of_click/rewriter.py, rewrite_urls_in_text).
 */
module LinkScan {
  import opened Text

  const MARKER := "/toc/redirect"

  predicate Delimits(c: char) {
    IsSpace(c) || c == '<' || c == '>' || c == '"' || c == '\''
  }

  function SchemeLength(s: string): nat {
    if StartsWith(s, "http://") then 7 else if StartsWith(s, "https://") then 8 else 0
  }

  /** The length of the URL at the front of s, or 0 if there is none. */
  function UrlLength(s: string): (n: nat)
    ensures n <= RunLength(s, Delimits)
  {
    if 0 < SchemeLength(s) < RunLength(s, Delimits) then RunLength(s, Delimits) else 0
  }

  /** A rewritten text, and the URLs that were replaced in it, from left to right. */
  datatype Rewriting = Rewriting(text: string, links: seq<string>) {
    function Then(next: Rewriting): Rewriting {
      Rewriting(text + next.text, links + next.links)
    }
  }

  const NOTHING := Rewriting("", [])

  lemma ThenLaws(a: Rewriting, b: Rewriting, c: Rewriting)
    ensures a.Then(b).Then(c) == a.Then(b.Then(c))
    ensures a.Then(NOTHING) == a && NOTHING.Then(a) == a
  {
  }

  function ReplaceUrl(link: string -> string, url: string): Rewriting {
    if Contains(url, MARKER) then Rewriting(url, []) else Rewriting(link(url), [url])
  }

  /** How much of s the scan consumes in one step: a whole URL or one character. */
  function Step(s: string): (n: nat)
    requires s != ""
    ensures 1 <= n <= |s|
  {
    if UrlLength(s) == 0 then 1 else UrlLength(s)
  }

  /** What the scan writes for that step. */
  function Piece(link: string -> string, s: string): Rewriting
    requires s != ""
  {
    if UrlLength(s) == 0 then Rewriting(s[..1], []) else ReplaceUrl(link, s[..UrlLength(s)])
  }

  function Rewrite(link: string -> string, s: string): Rewriting
    decreases |s|
  {
    if s == "" then NOTHING else Piece(link, s).Then(Rewrite(link, s[Step(s)..]))
  }

  /** The substitution callback, for one step of the scan. */
  method ReplaceNext(link: string -> string, rest: string) returns (n: nat, text: string, counted: nat)
    requires rest != ""
    ensures n == Step(rest) && text == Piece(link, rest).text && counted == |Piece(link, rest).links|
  {
    n := UrlLength(rest);
    if n == 0 {
      return 1, rest[..1], 0;
    }
    var url := rest[..n];
    if Contains(url, MARKER) {
      return n, url, 0;
    }
    return n, link(url), 1;
  }

  method RewriteUrls(link: string -> string, content: string) returns (text: string, count: nat)
    ensures text == Rewrite(link, content).text && count == |Rewrite(link, content).links|
  {
    text, count := "", 0;
    var rest := content;
    while rest != ""
      invariant text + Rewrite(link, rest).text == Rewrite(link, content).text
      invariant count + |Rewrite(link, rest).links| == |Rewrite(link, content).links|
      decreases |rest|
    {
      var n, piece, counted := ReplaceNext(link, rest);
      assert text + (piece + Rewrite(link, rest[n..]).text) == (text + piece) + Rewrite(link, rest[n..]).text;
      text, count, rest := text + piece, count + counted, rest[n..];
    }
  }

  /** Every URL the scan replaces is a whole match, and its replacement is in the output. */
  lemma {:induction false} ReplacementsAreInOutput(link: string -> string, s: string, k: nat)
    requires k < |Rewrite(link, s).links|
    ensures var url := Rewrite(link, s).links[k];
            UrlLength(url) == |url| > 0 && Contains(Rewrite(link, s).text, link(url))
    decreases |s|
  {
    var here, rest := Piece(link, s), Rewrite(link, s[Step(s)..]);
    var url := Rewrite(link, s).links[k];
    if k < |here.links| {
      UrlOfPiece(s);
      assert here == Rewriting(link(url), [url]);
      assert OccursAt(here.text + rest.text, link(url), 0);
    } else {
      ReplacementsAreInOutput(link, s[Step(s)..], k - |here.links|);
      ContainsLater(here.text, rest.text, link(url));
    }
  }

  /** The URL at the front of s, seen alone, is a whole match. */
  lemma UrlOfPiece(s: string)
    requires UrlLength(s) > 0
    ensures UrlLength(s[..UrlLength(s)]) == UrlLength(s)
  {
    var url, t := s[..UrlLength(s)], s[UrlLength(s)..];
    assert url + t == s;
    UrlOfWord(url, t);
  }

  lemma ContainsLater(front: string, s: string, p: string)
    requires Contains(s, p)
    ensures Contains(front + s, p)
  {
    var i :| 0 <= i <= |s| - |p| && OccursAt(s, p, i);
    assert (front + s)[|front| + i..|front| + i + |p|] == s[i..i + |p|];
    assert OccursAt(front + s, p, |front| + i);
  }

  // ---------- The scan treats each word by itself ----------

  ghost predicate Undelimited(s: string) {
    forall i :: 0 <= i < |s| ==> !Delimits(s[i])
  }

  ghost predicate WordEnds(t: string) {
    t == "" || Delimits(t[0])
  }

  lemma {:induction false} RunOfWord(w: string, t: string)
    requires Undelimited(w) && WordEnds(t)
    ensures RunLength(w + t, Delimits) == |w|
  {
    if w == "" {
      assert w + t == t;
    } else {
      assert (w + t)[1..] == w[1..] + t;
      RunOfWord(w[1..], t);
    }
  }

  /** A prefix made of word characters lies inside the word. */
  lemma PrefixOfWord(w: string, t: string, p: string)
    requires WordEnds(t) && Undelimited(p)
    ensures p <= w + t <==> p <= w
  {
    if |p| > |w| && t != "" {
      assert !Delimits(p[|w|]) && Delimits((w + t)[|w|]);
    }
  }

  /** What follows a word does not decide whether a URL starts in it. */
  lemma UrlOfWord(w: string, t: string)
    requires Undelimited(w) && WordEnds(t)
    ensures UrlLength(w + t) == UrlLength(w)
    ensures UrlLength(w) > 0 ==> UrlLength(w) == |w|
  {
    RunOfWord(w, t);
    RunOfWord(w, "");
    assert w + "" == w;
    PrefixOfWord(w, t, "http://");
    PrefixOfWord(w, t, "https://");
  }

  /** A URL is the scheme and everything up to white space, an angle bracket or a quotation mark. */
  lemma UrlReaches(scheme: string, body: string, rest: string)
    requires scheme in ["http://", "https://"] && body != ""
    requires forall i :: 0 <= i < |body| ==> '!' <= body[i] <= '~' && body[i] !in "<>\"'"
    requires rest == "" || rest[0] in " \t\r\n<>\"'"
    ensures UrlLength(scheme + body + rest) == |scheme + body|
  {
    var w := scheme + body;
    assert forall i :: 0 <= i < |scheme| ==> !Delimits(scheme[i]);
    assert Undelimited(w);
    RunOfWord(w, rest);
    if scheme == "http://" {
      assert (w + rest)[..7] == scheme;
    } else {
      assert (w + rest)[..8] == scheme && (w + rest)[4] == 's';
    }
  }

  lemma {:induction false} RewriteByWord(link: string -> string, w: string, t: string)
    requires Undelimited(w) && WordEnds(t)
    ensures Rewrite(link, w + t) == Rewrite(link, w).Then(Rewrite(link, t))
  {
    if w == "" {
      assert w + t == t;
      ThenLaws(Rewrite(link, t), NOTHING, NOTHING);
    } else {
      UrlOfWord(w, t);
      var n := Step(w);
      assert Step(w + t) == n && (w + t)[..n] == w[..n] && (w + t)[n..] == w[n..] + t;
      assert Piece(link, w + t) == Piece(link, w);
      RewriteByWord(link, w[n..], t);
      ThenLaws(Piece(link, w), Rewrite(link, w[n..]), Rewrite(link, t));
    }
  }

  lemma RewriteOfUrl(link: string -> string, w: string)
    requires Undelimited(w) && UrlLength(w) > 0
    ensures Rewrite(link, w) == ReplaceUrl(link, w)
  {
    UrlOfWord(w, "");
    assert w[..|w|] == w && w[|w|..] == "";
    ThenLaws(ReplaceUrl(link, w), NOTHING, NOTHING);
  }

  /** In one word at most the first URL is replaced, and it reaches to the end of the word. */
  lemma {:induction false} RewriteOfWord(link: string -> string, w: string) returns (p: nat)
    requires Undelimited(w)
    ensures p <= |w| && forall i :: 0 <= i < p ==> UrlLength(w[i..]) == 0
    ensures p == |w| ==> Rewrite(link, w) == Rewriting(w, [])
    ensures p < |w| ==> UrlLength(w[p..]) > 0
                        && Rewrite(link, w) == Rewriting(w[..p], []).Then(ReplaceUrl(link, w[p..]))
  {
    if w == "" {
      return 0;
    }
    if UrlLength(w) > 0 {
      RewriteOfUrl(link, w);
      assert w[0..] == w && Rewriting(w[..0], []) == NOTHING;
      ThenLaws(ReplaceUrl(link, w), NOTHING, NOTHING);
      return 0;
    }
    var q := RewriteOfWord(link, w[1..]);
    p := q + 1;
    Shift(w, q);
    assert w[0..] == w && forall i :: 0 < i <= |w| ==> w[i..] == w[1..][i - 1..];
    assert Rewrite(link, w) == Rewriting(w[..1], []).Then(Rewrite(link, w[1..]));
    if p < |w| {
      ThenLaws(Rewriting(w[..1], []), Rewriting(w[1..][..q], []), ReplaceUrl(link, w[p..]));
    }
  }

  lemma Shift(w: string, q: nat)
    requires q < |w|
    ensures w[q + 1..] == w[1..][q..]
    ensures Rewriting(w[..q + 1], []) == Rewriting(w[..1], []).Then(Rewriting(w[1..][..q], []))
    ensures Rewriting(w, []) == Rewriting(w[..1], []).Then(Rewriting(w[1..], []))
  {
    assert w[..q + 1] == w[..1] + w[1..][..q];
    assert w == w[..1] + w[1..];
  }

  // ---------- Taking a text apart ----------

  lemma DelimiterFirst(link: string -> string, c: char, s: string)
    requires Delimits(c)
    ensures Rewrite(link, [c] + s) == Rewriting([c], []).Then(Rewrite(link, s))
  {
    assert ([c] + s)[1..] == s && ([c] + s)[..1] == [c];
  }

  /** The cut between a and b is before or behind a delimiter, or at an end. */
  ghost predicate CutsAtDelimiter(a: string, b: string) {
    a == "" || Delimits(a[|a| - 1]) || WordEnds(b)
  }

  lemma CutsLater(a: string, b: string, n: nat)
    requires CutsAtDelimiter(a, b) && n <= |a|
    ensures CutsAtDelimiter(a[n..], b)
    ensures a != "" && n == RunLength(a, Delimits) ==> Undelimited(a[..n]) && WordEnds(a[n..]) && WordEnds(a[n..] + b)
  {
    assert n < |a| ==> a[n..][|a| - n - 1] == a[|a| - 1];
  }

  lemma Slices(a: string, b: string, n: nat)
    requires n <= |a|
    ensures a == a[..n] + a[n..] && a + b == a[..n] + (a[n..] + b)
  {
  }

  /** A text may be cut before or behind any delimiter. */
  lemma {:induction false} RewriteInParts(link: string -> string, a: string, b: string)
    requires CutsAtDelimiter(a, b)
    ensures Rewrite(link, a + b) == Rewrite(link, a).Then(Rewrite(link, b))
    decreases |a|
  {
    if a == "" {
      assert a + b == b;
      ThenLaws(Rewrite(link, b), NOTHING, NOTHING);
    } else {
      var n := if Delimits(a[0]) then 1 else RunLength(a, Delimits);
      CutsLater(a, b, n);
      Slices(a, b, n);
      RewriteInParts(link, a[n..], b);
      if Delimits(a[0]) {
        PartsAfterDelimiter(link, a[..n], a[n..], b, a, a + b);
      } else {
        PartsAfterWord(link, a[..n], a[n..], b, a, a + b);
      }
    }
  }

  lemma PartsAfterDelimiter(link: string -> string, c: string, rest: string, b: string, a: string, whole: string)
    requires |c| == 1 && Delimits(c[0]) && a == c + rest && whole == c + (rest + b)
    requires Rewrite(link, rest + b) == Rewrite(link, rest).Then(Rewrite(link, b))
    ensures Rewrite(link, whole) == Rewrite(link, a).Then(Rewrite(link, b))
  {
    assert c == [c[0]];
    DelimiterFirst(link, c[0], rest);
    DelimiterFirst(link, c[0], rest + b);
    ThenLaws(Rewriting(c, []), Rewrite(link, rest), Rewrite(link, b));
  }

  lemma PartsAfterWord(link: string -> string, w: string, rest: string, b: string, a: string, whole: string)
    requires Undelimited(w) && WordEnds(rest) && WordEnds(rest + b) && a == w + rest && whole == w + (rest + b)
    requires Rewrite(link, rest + b) == Rewrite(link, rest).Then(Rewrite(link, b))
    ensures Rewrite(link, whole) == Rewrite(link, a).Then(Rewrite(link, b))
  {
    RewriteByWord(link, w, rest);
    RewriteByWord(link, w, rest + b);
    ThenLaws(Rewrite(link, w), Rewrite(link, rest), Rewrite(link, b));
  }

  lemma {:induction false} NoLinksNoChange(link: string -> string, s: string)
    requires Rewrite(link, s).links == []
    ensures Rewrite(link, s).text == s
    decreases |s|
  {
    if s != "" {
      assert s == s[..Step(s)] + s[Step(s)..];
      NoLinksNoChange(link, s[Step(s)..]);
    }
  }
}
