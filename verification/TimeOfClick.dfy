/**
 Time-of-click links: their construction (time_of_click/rewriter.py) and their verification
 when clicked (time_of_click/service.py).
 */
module TimeOfClick {
  import opened Text
  import opened Encodings
  import opened LinkScan
  import opened LinkIdempotence

  /** An HMAC-SHA256 value. */
  type Digest = d: seq<Byte> | |d| == 32 witness seq(32, _ => 0)

  /** `mac` takes the key and the message. */
  datatype Gateway = Gateway(baseUrl: string, secret: string, mac: (seq<Byte>, seq<Byte>) -> Digest)

  predicate IsSlash(c: char) {
    c == '/'
  }

  function Base(g: Gateway): string {
    StripRight(g.baseUrl, IsSlash)
  }

  function Signature(g: Gateway, url: string): (sig: string)
    ensures |sig| == 16 && forall i :: 0 <= i < 16 ==> '0' <= sig[i] <= '9' || 'a' <= sig[i] <= 'f'
  {
    Hex(g.mac(Utf8Encode(g.secret), Utf8Encode(url)))[..16]
  }

  function EncodedTarget(url: string): string {
    Base64Encode(Utf8Encode(url))
  }

  function LinkTail(encoded: string, sig: string): string {
    MARKER + ("?url=" + (encoded + ("&sig=" + sig)))
  }

  function CreateTocUrl(g: Gateway, url: string): string {
    Base(g) + LinkTail(EncodedTarget(url), Signature(g, url))
  }

  function Linker(g: Gateway): string -> string {
    url => CreateTocUrl(g, url)
  }

  method RewriteUrlsInText(g: Gateway, content: string) returns (text: string, count: nat)
    ensures if content == "" || g.secret == "" || g.baseUrl == "" then text == content && count == 0
            else text == Rewrite(Linker(g), content).text && count == |Rewrite(Linker(g), content).links|
  {
    if content == "" || g.secret == "" || g.baseUrl == "" {
      return content, 0;
    }
    text, count := RewriteUrls(Linker(g), content);
  }

  // ---------- The click ----------

  function Decoded(encodedUrl: string): Option<string> {
    match Base64Decode(encodedUrl)
    case None => None
    case Some(bytes) => Utf8Decode(bytes)
  }

  predicate Accepts(g: Gateway, encodedUrl: string, signature: string) {
    encodedUrl != "" && Decoded(encodedUrl).Some? && signature == Signature(g, Decoded(encodedUrl).value)
  }

  /** Accepts exactly the pairs whose first part decodes to a URL that the second part signs. */
  method DecodeAndVerify(g: Gateway, encodedUrl: string, signature: string) returns (ok: bool, target: string)
    ensures ok == Accepts(g, encodedUrl, signature)
    ensures target == if encodedUrl == "" || signature == "" || Decoded(encodedUrl).None? then ""
                      else Decoded(encodedUrl).value
  {
    if encodedUrl == "" || signature == "" {
      return false, "";
    }
    var bytes := Base64Decode(encodedUrl);
    if bytes.None? {
      return false, "";
    }
    var url := Utf8Decode(bytes.value);
    if url.None? {
      return false, "";
    }
    return signature == Signature(g, url.value), url.value;
  }

  /** The url and sig parameters of a link with this base, split at the first ampersand. */
  function LinkParameters(base: string, link: string): (string, string) {
    var query := Drop(link, |base| + |MARKER| + |"?url="|);
    (Before(query, '&'), Drop(After(query, '&'), |"sig="|))
  }

  lemma ParametersOfLink(base: string, encoded: string, sig: string)
    requires '&' !in encoded
    ensures LinkParameters(base, base + LinkTail(encoded, sig)) == (encoded, sig)
  {
    var query := encoded + ("&sig=" + sig);
    assert base + LinkTail(encoded, sig) == (base + MARKER + "?url=") + query;
    assert Drop(base + LinkTail(encoded, sig), |base| + |MARKER| + |"?url="|) == query;
    assert query == encoded + ['&'] + ("sig=" + sig);
    PartitionOf(encoded, '&', "sig=" + sig);
  }

  /** The parameters read back from a link made for a URL decode to it and carry its signature. */
  lemma LinkRoundTrip(g: Gateway, url: string)
    requires url != ""
    ensures var (encoded, sig) := LinkParameters(Base(g), CreateTocUrl(g, url));
            encoded != "" && Decoded(encoded) == Some(url) && sig == Signature(g, url)
  {
    Base64Alphabet(Utf8Encode(url));
    Base64RoundTrip(Utf8Encode(url));
    Utf8RoundTrip(url);
    ParametersOfLink(Base(g), EncodedTarget(url), Signature(g, url));
  }

  /**
   The signature in the link made for one URL is accepted with another URL exactly when the keyed
   hashes of the two URLs begin with the same eight bytes.
   */
  lemma SignatureIsBound(g: Gateway, a: string, b: string)
    requires b != ""
    ensures var (_, sig) := LinkParameters(Base(g), CreateTocUrl(g, a));
            Accepts(g, EncodedTarget(b), sig) <==>
            g.mac(Utf8Encode(g.secret), Utf8Encode(a))[..8] == g.mac(Utf8Encode(g.secret), Utf8Encode(b))[..8]
  {
    Base64Alphabet(Utf8Encode(a));
    Base64Alphabet(Utf8Encode(b));
    ParametersOfLink(Base(g), EncodedTarget(a), Signature(g, a));
    Base64RoundTrip(Utf8Encode(b));
    Utf8RoundTrip(b);
    HexPrefixes(g.mac(Utf8Encode(g.secret), Utf8Encode(a)), g.mac(Utf8Encode(g.secret), Utf8Encode(b)), 8);
  }

  /** For a URL, nothing but the first eight bytes of its keyed hash, in hexadecimal, is accepted as signature. */
  lemma OnlyTheMarkIsAccepted(g: Gateway, url: string, sig: string)
    requires url != ""
    ensures Accepts(g, EncodedTarget(url), sig) <==> sig == Hex(g.mac(Utf8Encode(g.secret), Utf8Encode(url))[..8])
  {
    Base64Alphabet(Utf8Encode(url));
    Base64RoundTrip(Utf8Encode(url));
    Utf8RoundTrip(url);
    HexOfPrefix(g.mac(Utf8Encode(g.secret), Utf8Encode(url)), 8);
  }

  /** The link in full: any number of slashes at the end of the configured base are dropped. */
  lemma LinkInFull(g: Gateway, base: string, slashes: string, url: string)
    requires g.baseUrl == base + slashes && (base == "" || base[|base| - 1] != '/')
    requires forall i :: 0 <= i < |slashes| ==> slashes[i] == '/'
    ensures CreateTocUrl(g, url) == base + "/toc/redirect?url=" + Base64Encode(Utf8Encode(url)) + "&sig=" +
                                    Hex(g.mac(Utf8Encode(g.secret), Utf8Encode(url))[..8])
  {
    StripRightOf(base, slashes, IsSlash);
    HexOfPrefix(g.mac(Utf8Encode(g.secret), Utf8Encode(url)), 8);
    var encoded, sig := Base64Encode(Utf8Encode(url)), Signature(g, url);
    Spliced(base, encoded, sig);
  }

  lemma Spliced(base: string, encoded: string, sig: string)
    ensures base + LinkTail(encoded, sig) == base + "/toc/redirect?url=" + encoded + "&sig=" + sig
  {
    assert MARKER + "?url=" == "/toc/redirect?url=";
  }

  /** Every URL the pass replaces survives as a link in its output that verifies back to it. */
  lemma RewrittenLinksRoundTrip(g: Gateway, s: string, url: string)
    requires url in Rewrite(Linker(g), s).links
    ensures Contains(Rewrite(Linker(g), s).text, CreateTocUrl(g, url))
    ensures var (encoded, sig) := LinkParameters(Base(g), CreateTocUrl(g, url));
            encoded != "" && Decoded(encoded) == Some(url) && sig == Signature(g, url)
  {
    var k :| 0 <= k < |Rewrite(Linker(g), s).links| && Rewrite(Linker(g), s).links[k] == url;
    ReplacementsAreInOutput(Linker(g), s, k);
    LinkRoundTrip(g, url);
  }

  lemma TailIsMarked(encoded: string, sig: string)
    requires forall i :: 0 <= i < |encoded| ==> IsBase64Char(encoded[i])
    requires forall i :: 0 <= i < |sig| ==> '0' <= sig[i] <= '9' || 'a' <= sig[i] <= 'f'
    ensures MarkedTail(LinkTail(encoded, sig))
  {
    var tail := LinkTail(encoded, sig);
    forall i | 0 <= i < |tail|
      ensures !Delimits(tail[i]) && tail[i] != ':'
    {
      var m, e := |MARKER| + 5, |encoded|;
      if m <= i < m + e {
        assert tail[i] == encoded[i - m];
      } else if i >= m + e + 5 {
        assert tail[i] == sig[i - m - e - 5];
      }
    }
  }

  lemma LinksAreMarked(g: Gateway)
    ensures MarksLinks(Linker(g), Base(g))
  {
    forall url
      ensures MarkedLink(Linker(g)(url), Base(g))
    {
      Base64Alphabet(Utf8Encode(url));
      TailIsMarked(EncodedTarget(url), Signature(g, url));
      assert Linker(g)(url) == Base(g) + LinkTail(EncodedTarget(url), Signature(g, url));
    }
  }

  /** With a base URL free of delimiter characters, rewriting twice is rewriting once. */
  lemma TocRewriteIsIdempotent(g: Gateway, s: string)
    requires Undelimited(Base(g))
    ensures Idempotent(Linker(g), s)
  {
    LinksAreMarked(g);
    RewriteIsIdempotent(Linker(g), Base(g), s);
  }

  /** For every base URL: that is so of all texts exactly when the base up to its last delimiter survives a pass. */
  lemma TocIdempotentIff(g: Gateway)
    ensures (forall s :: Idempotent(Linker(g), s)) <==> HeadSurvives(Linker(g), Head(Base(g)))
  {
    LinksAreMarked(g);
    IdempotentIffHeadSurvives(Linker(g), Base(g));
  }

  /** So, of the base URLs that the scan sees as URLs without a marker, exactly those without a delimiter do. */
  lemma IdempotentIffUndelimited(g: Gateway)
    requires UrlLength(Base(g)) > 0 && !Contains(Base(g)[..UrlLength(Base(g))], MARKER)
    ensures (forall s :: Idempotent(Linker(g), s)) <==> Undelimited(Base(g))
  {
    TocIdempotentIff(g);
    UrlHeadSurvivesIff(Linker(g), Base(g));
  }
}
