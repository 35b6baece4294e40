/** Neutering of links in plain text, delivery/modify.py (_defang, defang_text_links). */
module Defang {
  import opened Text

  const NOTE := "[LINK REMOVED: "

  // ---------- The code: three replacements inside each scanned URL ----------

  /** `s.replace(old, new)` */
  function Replace(s: string, old_: string, new_: string): string
    requires old_ != ""
    decreases |s|
  {
    if s == "" then ""
    else if old_ <= s then new_ + Replace(s[|old_|..], old_, new_)
    else [s[0]] + Replace(s[1..], old_, new_)
  }

  function DefangUrl(url: string): string {
    Replace(Replace(Replace(url, "http://", "hxxp[://]"), "https://", "hxxps[://]"), ".", "[.]")
  }

  /** A character that ends a URL: white space or one of "'<>)] */
  predicate Stops(c: char) {
    IsSpace(c) || c == '"' || c == '\'' || c == '<' || c == '>' || c == ')' || c == ']'
  }

  /** Case-insensitive comparison with a lower-case pattern character; the long s folds to s. */
  predicate Folds(c: char, p: char) {
    c == p || ('a' <= p <= 'z' && c == UpperChar(p)) || (p == 's' && c as int == 0x17F)
  }

  /** s begins with the pattern, and a character of a URL follows it. */
  predicate Matches(p: string, s: string) {
    if p == "" then s != "" && !Stops(s[0])
    else s != "" && Folds(s[0], p[0]) && Matches(p[1..], s[1..])
  }

  /** A match of https?://[^\s"'<>)\]]+ (ignoring case) starts at the front of s. */
  predicate UrlAt(s: string) {
    Matches("http://", s) || Matches("https://", s)
  }

  lemma UrlRuns(s: string)
    ensures UrlAt(s) ==> RunLength(s, Stops) > 0 && Folds(s[0], 'h')
  {
    assert forall c :: Folds(c, 'h') ==> !Stops(c);
  }

  function DefangTextLinks(s: string): string
    decreases |s|
  {
    if s == "" then ""
    else if UrlAt(s) then
      UrlRuns(s);
      NOTE + DefangUrl(s[..RunLength(s, Stops)]) + "]" + DefangTextLinks(s[RunLength(s, Stops)..])
    else [s[0]] + DefangTextLinks(s[1..])
  }

  // ---------- The same transformation as a two-state transducer ----------

  /** How many characters of a URL are rewritten as one unit. */
  function TokenLength(u: string): (n: nat)
    requires u != ""
    ensures 1 <= n <= |u|
  {
    if "http://" <= u then 7 else if "https://" <= u then 8 else 1
  }

  function Token(u: string): string
    requires u != ""
  {
    if "http://" <= u then "hxxp[://]"
    else if "https://" <= u then "hxxps[://]"
    else if u[0] == '.' then "[.]"
    else [u[0]]
  }

  /** One URL, token by token. */
  function Spell(u: string): string
    decreases |u|
  {
    if u == "" then "" else Token(u) + Spell(u[TokenLength(u)..])
  }

  /** Outside a URL. */
  function Out(s: string): string
    decreases |s|, if UrlAt(s) then 1 else 0
  {
    if s == "" then ""
    else if UrlAt(s) then UrlRuns(s); NOTE + In(s)
    else [s[0]] + Out(s[1..])
  }

  /** Inside a URL. */
  function In(s: string): string
    decreases |s|, if s == "" || Stops(s[0]) then 1 else 0
  {
    if s == "" || Stops(s[0]) then UrlRuns(s); "]" + Out(s)
    else Token(s) + In(s[TokenLength(s)..])
  }

  /** Replacing passes over a front in which the pattern does not start. */
  lemma {:induction false} ReplaceSkips(front: string, s: string, old_: string, new_: string)
    requires old_ != "" && forall j :: 0 <= j < |front| ==> !(old_ <= (front + s)[j..])
    ensures Replace(front + s, old_, new_) == front + Replace(s, old_, new_)
  {
    if front == "" {
      assert front + s == s;
    } else {
      assert (front + s)[0..] == front + s && (front + s)[1..] == front[1..] + s;
      assert forall j :: 0 <= j < |front| - 1 ==> (front[1..] + s)[j..] == (front + s)[j + 1..];
      ReplaceSkips(front[1..], s, old_, new_);
    }
  }

  /** Replacing "http://" does not create or destroy a prefix that has no h. */
  lemma {:induction false} ReplaceKeepsPrefix(p: string, s: string)
    requires 'h' !in p
    ensures p <= Replace(s, "http://", "hxxp[://]") <==> p <= s
  {
    var r := Replace(s, "http://", "hxxp[://]");
    if p != "" && s != "" && !("http://" <= s) {
      ReplaceKeepsPrefix(p[1..], s[1..]);
      assert p <= r <==> p[0] == r[0] && p[1..] <= r[1..];
      assert p <= s <==> p[0] == s[0] && p[1..] <= s[1..];
    } else if p != "" && "http://" <= s {
      assert r[0] == 'h' == s[0] && p[0] != 'h';
    }
  }

  lemma ConsPrefix(c: char, s: string, d: char, p: string)
    ensures [d] + p <= [c] + s <==> c == d && p <= s
  {
    var x, y := [d] + p, [c] + s;
    assert x[0] == d && y[0] == c && |x| == |p| + 1 && |y| == |s| + 1;
    assert forall i :: 0 <= i < |p| ==> p[i] == x[i + 1];
    assert forall i :: 0 <= i < |s| ==> s[i] == y[i + 1];
    assert forall i :: 1 <= i < |x| ==> x[i] == p[i - 1];
    assert forall i :: 1 <= i < |y| ==> y[i] == s[i - 1];
  }

  lemma {:induction false} DefangIsSpell(u: string)
    ensures DefangUrl(u) == Spell(u)
    decreases |u|
  {
    var r1 := Replace(u, "http://", "hxxp[://]");
    if u == "" {
    } else if "http://" <= u {
      var x1 := Replace(u[7..], "http://", "hxxp[://]");
      var x2 := Replace(x1, "https://", "hxxps[://]");
      SkipLiteral("hxxp[://]", x1);
      SkipDots("hxxp[://]", x2);
      DefangIsSpell(u[7..]);
    } else if "https://" <= u {
      assert u == "https://" + u[8..];
      SkipHttp(u[8..]);
      var x1 := Replace(u[8..], "http://", "hxxp[://]");
      var x2 := Replace(x1, "https://", "hxxps[://]");
      assert r1[8..] == x1;
      SkipDots("hxxps[://]", x2);
      DefangIsSpell(u[8..]);
    } else {
      var x1 := Replace(u[1..], "http://", "hxxp[://]");
      var x2 := Replace(x1, "https://", "hxxps[://]");
      ReplaceKeepsPrefix("ttps://", u[1..]);
      ConsPrefix(u[0], x1, 'h', "ttps://");
      ConsPrefix(u[0], u[1..], 'h', "ttps://");
      assert "https://" == ['h'] + "ttps://" && u == [u[0]] + u[1..];
      assert r1[1..] == x1;
      var r2 := Replace(r1, "https://", "hxxps[://]");
      assert r2 == [u[0]] + x2;
      assert r2[1..] == x2 && ("." <= r2 <==> u[0] == '.');
      DefangIsSpell(u[1..]);
    }
  }

  lemma SkipLiteral(front: string, s: string)
    requires front == "hxxp[://]"
    ensures Replace(front + s, "https://", "hxxps[://]") == front + Replace(s, "https://", "hxxps[://]")
  {
    forall j | 0 <= j < |front|
      ensures !("https://" <= (front + s)[j..])
    {
      assert (front + s)[j..][0] == front[j];
      assert j == 0 ==> (front + s)[j..][1] == 'x';
    }
    ReplaceSkips(front, s, "https://", "hxxps[://]");
  }

  lemma SkipHttp(s: string)
    ensures Replace("https://" + s, "http://", "hxxp[://]") == "https://" + Replace(s, "http://", "hxxp[://]")
  {
    var front := "https://";
    forall j | 0 <= j < |front|
      ensures !("http://" <= (front + s)[j..])
    {
      assert (front + s)[j..][0] == front[j];
      assert j == 0 ==> (front + s)[j..][4] == 's';
    }
    ReplaceSkips(front, s, "http://", "hxxp[://]");
  }

  lemma SkipDots(front: string, s: string)
    requires '.' !in front
    ensures Replace(front + s, ".", "[.]") == front + Replace(s, ".", "[.]")
  {
    forall j | 0 <= j < |front|
      ensures !("." <= (front + s)[j..])
    {
      assert (front + s)[j..][0] == front[j];
    }
    ReplaceSkips(front, s, ".", "[.]");
  }

  ghost predicate Unstopped(u: string) {
    forall i :: 0 <= i < |u| ==> !Stops(u[i])
  }

  lemma PrefixOfRun(u: string, rest: string, p: string)
    requires (rest == "" || Stops(rest[0])) && Unstopped(p)
    ensures p <= u + rest <==> p <= u
  {
    if |p| > |u| && rest != "" {
      assert !Stops(p[|u|]) && Stops((u + rest)[|u|]);
    }
  }

  lemma DropOfAppend(u: string, rest: string, n: nat)
    requires n <= |u|
    ensures (u + rest)[n..] == u[n..] + rest
  {
  }

  lemma TokenOfRun(u: string, rest: string)
    requires u != "" && Unstopped(u) && (rest == "" || Stops(rest[0]))
    ensures Token(u + rest) == Token(u) && TokenLength(u + rest) == TokenLength(u)
    ensures (u + rest)[TokenLength(u)..] == u[TokenLength(u)..] + rest
  {
    PrefixOfRun(u, rest, "http://");
    PrefixOfRun(u, rest, "https://");
    assert (u + rest)[0] == u[0];
    DropOfAppend(u, rest, TokenLength(u));
  }

  lemma InStep(s: string)
    requires s != "" && !Stops(s[0])
    ensures In(s) == Token(s) + In(s[TokenLength(s)..])
  {
  }

  lemma InStepOfRun(u: string, rest: string)
    requires u != "" && Unstopped(u) && (rest == "" || Stops(rest[0]))
    ensures In(u + rest) == Token(u) + In(u[TokenLength(u)..] + rest)
  {
    TokenOfRun(u, rest);
    assert (u + rest)[0] == u[0];
    InStep(u + rest);
  }

  /** One unfolding of a reading of a URL, in a text and on its own: both write the same token and go on behind it. */
  ghost predicate ReadsAlike(inText: string -> string, alone: string -> string, u: string, rest: string) {
    exists token: string, n: nat ::
      && 1 <= n <= |u|
      && inText(u + rest) == token + inText(u[n..] + rest)
      && alone(u) == token + alone(u[n..])
  }

  lemma {:induction false} ReadToTheEnd(inText: string -> string, alone: string -> string, u: string, rest: string,
                                        end: string)
    requires Unstopped(u) && inText("" + rest) == end && alone("") == ""
    requires forall v :: v != "" && Unstopped(v) ==> ReadsAlike(inText, alone, v, rest)
    ensures inText(u + rest) == alone(u) + end
    decreases |u|
  {
    if u != "" {
      assert ReadsAlike(inText, alone, u, rest);
      var token: string, n: nat :| 1 <= n <= |u| && inText(u + rest) == token + inText(u[n..] + rest)
        && alone(u) == token + alone(u[n..]);
      ReadToTheEnd(inText, alone, u[n..], rest, end);
      assert token + (alone(u[n..]) + end) == (token + alone(u[n..])) + end;
    }
  }

  lemma UrlReadsAlike(u: string, rest: string)
    requires u != "" && Unstopped(u) && (rest == "" || Stops(rest[0]))
    ensures ReadsAlike(In, Spell, u, rest)
  {
    InStepOfRun(u, rest);
    var token, n := Token(u), TokenLength(u);
    assert In(u + rest) == token + In(u[n..] + rest) && Spell(u) == token + Spell(u[n..]);
  }

  lemma InIsSpell(u: string, rest: string)
    requires Unstopped(u) && (rest == "" || Stops(rest[0]))
    ensures In(u + rest) == Spell(u) + ("]" + Out(rest))
  {
    forall v | v != "" && Unstopped(v)
      ensures ReadsAlike(In, Spell, v, rest)
    {
      UrlReadsAlike(v, rest);
    }
    assert "" + rest == rest;
    ReadToTheEnd(In, Spell, u, rest, "]" + Out(rest));
  }

  lemma UrlIsTransduced(s: string, n: nat)
    requires UrlAt(s) && n == RunLength(s, Stops)
    ensures s != "" && Out(s) == NOTE + DefangUrl(s[..n]) + "]" + Out(s[n..])
  {
    UrlRuns(s);
    OutAtUrl(s);
    InOfRun(s, n);
    DefangIsSpell(s[..n]);
    Regroup(NOTE, DefangUrl(s[..n]), "]", Out(s[n..]));
  }

  lemma InOfRun(s: string, n: nat)
    requires n == RunLength(s, Stops)
    ensures In(s) == Spell(s[..n]) + ("]" + Out(s[n..]))
  {
    assert s == s[..n] + s[n..];
    InIsSpell(s[..n], s[n..]);
  }

  lemma OutAtUrl(s: string)
    requires UrlAt(s)
    ensures s != "" && Out(s) == NOTE + In(s)
  {
    UrlRuns(s);
  }

  lemma Regroup(a: string, b: string, c: string, d: string)
    ensures a + (b + (c + d)) == a + b + c + d
  {
  }

  lemma {:induction false} TextLinksAreTransduced(s: string)
    ensures DefangTextLinks(s) == Out(s)
    decreases |s|
  {
    if s == "" {
    } else if UrlAt(s) {
      UrlRuns(s);
      UrlIsTransduced(s, RunLength(s, Stops));
      TextLinksAreTransduced(s[RunLength(s, Stops)..]);
    } else {
      TextLinksAreTransduced(s[1..]);
    }
  }

  // ---------- Nothing survives, exactly when every scheme is lower-case ----------

  predicate LowerScheme(s: string) {
    "http://" <= s || "https://" <= s
  }

  /** No match starts anywhere in s. */
  ghost predicate Free(s: string) {
    forall i :: 0 <= i < |s| ==> !UrlAt(s[i..])
  }

  /** Wherever a match could start in s, its scheme is written in lower case. */
  ghost predicate LowerSchemes(s: string) {
    forall i :: 0 <= i < |s| && UrlAt(s[i..]) ==> LowerScheme(s[i..])
  }

  lemma Cons(s: string)
    requires s != ""
    ensures Free(s) <==> !UrlAt(s) && Free(s[1..])
    ensures LowerSchemes(s) <==> (UrlAt(s) ==> LowerScheme(s)) && LowerSchemes(s[1..])
  {
    assert s[0..] == s;
    assert forall i :: 0 <= i < |s| - 1 ==> s[1..][i..] == s[i + 1..];
    assert forall i :: 1 <= i < |s| ==> s[i..] == s[1..][i - 1..];
  }

  /** A front without the letter h neither starts nor hides a match. */
  lemma {:induction false} PlainFront(front: string, s: string)
    requires forall i :: 0 <= i < |front| ==> !Folds(front[i], 'h')
    ensures Free(front + s) <==> Free(s)
    ensures LowerSchemes(front + s) <==> LowerSchemes(s)
  {
    if front == "" {
      assert front + s == s;
    } else {
      assert (front + s)[1..] == front[1..] + s;
      UrlRuns(front + s);
      Cons(front + s);
      PlainFront(front[1..], s);
    }
  }

  predicate SchemeChar(c: char) {
    c == 't' || c == 'p' || c == 's' || c == ':' || c == '/'
  }

  /** The transducer copies a character that is neither a dot nor the start of a scheme nor the end of a URL. */
  lemma Copied(s: string)
    requires s != "" && !Stops(s[0]) && s[0] != '.' && !Folds(s[0], 'h')
    ensures In(s) == [s[0]] + In(s[1..]) && Out(s) == [s[0]] + Out(s[1..])
  {
    UrlRuns(s);
    assert !LowerScheme(s);
  }

  /** Whatever the transducer writes first is a bracket, an h, or the character it reads. */
  lemma FirstWritten(s: string)
    ensures In(s) != "" && (In(s)[0] in "h[]" || (s != "" && In(s)[0] == s[0]))
    ensures Out(s) == "" || Out(s)[0] == '[' || (s != "" && Out(s)[0] == s[0])
  {
    UrlRuns(s);
    assert NOTE[0] == '[';
  }

  lemma SchemeCharsAreCopied(c: char, d: char)
    requires SchemeChar(d) && Folds(c, d)
    ensures !Stops(c) && c != '.' && !Folds(c, 'h') && c !in "h[]"
  {
  }

  lemma MatchHead(p: string, c: char, s: string)
    requires p != ""
    ensures Matches(p, [c] + s) <==> Folds(c, p[0]) && Matches(p[1..], s)
  {
    assert ([c] + s)[1..] == s;
  }

  lemma NoMatchAtHead(p: string, s: string)
    requires p != "" && (s == "" || !Folds(s[0], p[0]))
    ensures !Matches(p, s)
  {
  }

  /** The transducer keeps every part of a match after its first letter. */
  lemma {:induction false} TailKept(p: string, s: string)
    requires forall i :: 0 <= i < |p| ==> SchemeChar(p[i])
    ensures Matches(p, In(s)) <==> Matches(p, s)
    ensures Matches(p, Out(s)) <==> Matches(p, s)
  {
    FirstWritten(s);
    if p == "" {
      EndsKept(s);
    } else if s != "" && Folds(s[0], p[0]) {
      SchemeCharsAreCopied(s[0], p[0]);
      Copied(s);
      MatchHead(p, s[0], In(s[1..]));
      MatchHead(p, s[0], Out(s[1..]));
      TailKept(p[1..], s[1..]);
    } else {
      assert SchemeChar(p[0]);
      assert forall c :: c in "h[]" ==> !Folds(c, p[0]);
      NoMatchAtHead(p, s);
      NoMatchAtHead(p, In(s));
      NoMatchAtHead(p, Out(s));
    }
  }

  /** A URL character stays one, and an end stays an end. */
  lemma EndsKept(s: string)
    ensures (In(s) != "" && !Stops(In(s)[0])) <==> (s != "" && !Stops(s[0]))
    ensures (Out(s) != "" && !Stops(Out(s)[0])) <==> (s != "" && !Stops(s[0]))
  {
    InEnds(s);
    OutEnds(s);
  }

  lemma InEnds(s: string)
    ensures (In(s) != "" && !Stops(In(s)[0])) <==> (s != "" && !Stops(s[0]))
  {
    if s == "" || Stops(s[0]) {
      UrlRuns(s);
      assert In(s)[0] == ']';
    } else {
      TokenStart(s);
      assert In(s)[0] == Token(s)[0];
    }
  }

  lemma TokenStart(u: string)
    requires u != "" && !Stops(u[0])
    ensures Token(u) != "" && !Stops(Token(u)[0])
  {
  }

  lemma OutEnds(s: string)
    ensures (Out(s) != "" && !Stops(Out(s)[0])) <==> (s != "" && !Stops(s[0]))
  {
    if UrlAt(s) {
      OutAtUrl(s);
      UrlRuns(s);
      assert NOTE[0] == '[' && !Stops('[');
    }
  }

  lemma UrlAtHead(c: char, s: string)
    ensures UrlAt([c] + s) <==> Folds(c, 'h') && (Matches("ttp://", s) || Matches("ttps://", s))
  {
    assert ([c] + s)[1..] == s;
    assert "http://"[1..] == "ttp://" && "https://"[1..] == "ttps://";
  }

  /** A URL starts at the head of s exactly when one starts after the transducer has read on. */
  lemma UrlAtKept(s: string)
    requires s != ""
    ensures UrlAt([s[0]] + In(s[1..])) <==> UrlAt(s)
    ensures UrlAt([s[0]] + Out(s[1..])) <==> UrlAt(s)
  {
    assert s == [s[0]] + s[1..];
    TailKept("ttp://", s[1..]);
    TailKept("ttps://", s[1..]);
    UrlAtHead(s[0], s[1..]);
    UrlAtHead(s[0], In(s[1..]));
    UrlAtHead(s[0], Out(s[1..]));
  }

  /** In a lower-case scheme only the first position can start a match. */
  lemma SchemeInterior(s: string, scheme: string)
    requires scheme != "" && scheme <= s && LowerScheme(s)
    requires forall i :: 1 <= i < |scheme| ==> !Folds(scheme[i], 'h')
    ensures LowerSchemes(s) <==> LowerSchemes(s[|scheme|..])
  {
    var n := |scheme|;
    var front := scheme[1..];
    assert forall i :: 0 <= i < |front| ==> front[i] == scheme[i + 1];
    assert s[1..] == front + s[n..];
    Cons(s);
    PlainFront(front, s[n..]);
  }

  /** A replaced scheme is not a match, and none starts inside it. */
  lemma ReplacedScheme(tail: string, s: string)
    requires forall i :: 0 <= i < |tail| ==> !Folds(tail[i], 'h')
    ensures Free("hx" + tail + s) <==> Free(s)
  {
    var r := "x" + tail + s;
    assert "hx" + tail + s == ['h'] + r && (['h'] + r)[1..] == r && r == ("x" + tail) + s;
    Cons(['h'] + r);
    UrlAtHead('h', r);
    PlainFront("x" + tail, s);
  }

  lemma HttpIsNeutral(s: string, x: string)
    requires "http://" <= s
    ensures Free("hxxp[://]" + x) <==> Free(x)
    ensures LowerSchemes(s) <==> LowerSchemes(s[7..])
  {
    SchemeInterior(s, "http://");
    ReplacedScheme("xp[://]", x);
    assert "hx" + "xp[://]" == "hxxp[://]";
  }

  lemma HttpsIsNeutral(s: string, x: string)
    requires "https://" <= s
    ensures Free("hxxps[://]" + x) <==> Free(x)
    ensures LowerSchemes(s) <==> LowerSchemes(s[8..])
  {
    SchemeInterior(s, "https://");
    ReplacedScheme("xps[://]", x);
    assert "hx" + "xps[://]" == "hxxps[://]";
  }

  lemma DotIsNeutral(s: string, x: string)
    requires s != "" && s[0] == '.'
    ensures Free("[.]" + x) <==> Free(x)
    ensures LowerSchemes(s) <==> LowerSchemes(s[1..])
  {
    UrlRuns(s);
    Cons(s);
    PlainFront("[.]", x);
  }

  /** A token that replaces a lower-case scheme or a dot has no part in any match. */
  lemma TokenIsNeutral(s: string, x: string)
    requires s != "" && (LowerScheme(s) || s[0] == '.')
    ensures Free(Token(s) + x) <==> Free(x)
    ensures LowerSchemes(s) <==> LowerSchemes(s[TokenLength(s)..])
  {
    if "http://" <= s {
      HttpIsNeutral(s, x);
    } else if "https://" <= s {
      HttpsIsNeutral(s, x);
    } else {
      DotIsNeutral(s, x);
    }
  }

  lemma NoteIsNeutral(x: string)
    ensures Free(NOTE + x) <==> Free(x)
    ensures Free("]" + x) <==> Free(x)
  {
    assert forall i :: 0 <= i < |NOTE| ==> NOTE[i] != 'h' && NOTE[i] != 'H';
    PlainFront(NOTE, x);
    PlainFront("]", x);
  }

  lemma {:induction false} OutFreeIffLower(s: string)
    ensures Free(Out(s)) <==> LowerSchemes(s)
    decreases |s|, if UrlAt(s) then 1 else 0
  {
    UrlRuns(s);
    if s == "" {
    } else if UrlAt(s) {
      InFreeIffLower(s);
      NoteIsNeutral(In(s));
    } else {
      OutFreeIffLower(s[1..]);
      UrlAtKept(s);
      Cons(s);
      Head(s[0], Out(s[1..]));
    }
  }

  lemma {:induction false} InFreeIffLower(s: string)
    ensures Free(In(s)) <==> LowerSchemes(s)
    decreases |s|, if s == "" || Stops(s[0]) then 1 else 0
  {
    UrlRuns(s);
    if s == "" || Stops(s[0]) {
      OutFreeIffLower(s);
      NoteIsNeutral(Out(s));
    } else if LowerScheme(s) || s[0] == '.' {
      InFreeIffLower(s[TokenLength(s)..]);
      TokenIsNeutral(s, In(s[TokenLength(s)..]));
    } else {
      InFreeIffLower(s[1..]);
      UrlAtKept(s);
      Cons(s);
      Head(s[0], In(s[1..]));
    }
  }

  lemma Head(c: char, x: string)
    ensures Free([c] + x) <==> !UrlAt([c] + x) && Free(x)
  {
    Cons([c] + x);
    assert ([c] + x)[1..] == x;
  }

  /** The defanged text holds no URL exactly when every URL in the text has a lower-case scheme. */
  lemma NothingSurvivesIffLowerCase(s: string)
    ensures Free(DefangTextLinks(s)) <==> LowerSchemes(s)
  {
    TextLinksAreTransduced(s);
    OutFreeIffLower(s);
  }

  lemma MatchLonger(c: char, p: string, d: char, s: string)
    requires Folds(d, c) && Matches(p, s)
    ensures Matches([c] + p, [d] + s)
  {
    assert ([c] + p)[1..] == p && ([d] + s)[1..] == s;
  }

  lemma UpperCaseIsScanned()
    ensures UrlAt("HTTP://x")
  {
    MatchLonger('/', "", '/', "x");
    MatchLonger('/', "/", '/', "/x");
    MatchLonger(':', "//", ':', "//x");
    MatchLonger('p', "://", 'P', "://x");
    MatchLonger('t', "p://", 'T', "P://x");
    MatchLonger('t', "tp://", 'T', "TP://x");
    MatchLonger('h', "ttp://", 'H', "TTP://x");
    assert ['H'] + "TTP://x" == "HTTP://x";
  }

  /** A match at the front whose scheme is not in lower case survives. */
  lemma MixedCaseSurvives(s: string)
    requires UrlAt(s) && !LowerScheme(s)
    ensures !Free(DefangTextLinks(s))
  {
    assert s[0..] == s;
    NothingSurvivesIffLowerCase(s);
  }

  /** An upper-case scheme is recognised by the scan but not neutered. */
  lemma UpperCaseSurvives()
    ensures !Free(DefangTextLinks("HTTP://x"))
  {
    UpperCaseIsScanned();
    assert "HTTP://x"[0] != 'h';
    MixedCaseSurvives("HTTP://x");
  }

  // ---------- The original stays recoverable ----------

  function Refang(s: string): string
    decreases |s|
  {
    if s == "" then ""
    else if "hxxp[://]" <= s then "http://" + Refang(s[9..])
    else if "hxxps[://]" <= s then "https://" + Refang(s[10..])
    else if "[.]" <= s then "." + Refang(s[3..])
    else [s[0]] + Refang(s[1..])
  }

  /** A prefix of a spelled URL that ends in "]" and has no h and no dot shows a "]" in the URL. */
  lemma {:induction false} BracketFromUrl(p: string, u: string)
    requires p != "" && p[|p| - 1] == ']' && 'h' !in p && '.' !in p
    requires p <= Spell(u)
    ensures ']' in u
  {
    assert u != "" && p[0] == Spell(u)[0];
    assert !LowerScheme(u);
    if |p| == 1 {
      assert u[0] == ']';
    } else {
      assert p[1] == Spell(u)[1];
      assert u[0] != '.';
      assert Spell(u)[1..] == Spell(u[1..]);
      BracketFromUrl(p[1..], u[1..]);
    }
  }

  lemma {:induction false} RefangInvertsSpell(u: string)
    requires ']' !in u
    ensures Refang(Spell(u)) == u
    decreases |u|
  {
    if u != "" {
      var n := TokenLength(u);
      RefangInvertsSpell(u[n..]);
      if !LowerScheme(u) && u[0] != '.' {
        NoFalseToken(u[0], u[1..]);
      }
      RefangToken(u, Spell(u[n..]));
    }
  }

  /** A token is read back as what it was written for, unless a single character begins another token. */
  lemma RefangToken(u: string, x: string)
    requires u != ""
    requires !LowerScheme(u) && u[0] != '.' ==>
               !("hxxp[://]" <= [u[0]] + x) && !("hxxps[://]" <= [u[0]] + x) && !("[.]" <= [u[0]] + x)
    ensures Refang(Token(u) + x) == u[..TokenLength(u)] + Refang(x)
  {
    if "http://" <= u {
      RefangHttp(x);
    } else if "https://" <= u {
      RefangHttps(x);
    } else if u[0] == '.' {
      RefangDot(x);
    } else {
      RefangOne(u[0], x);
    }
  }

  lemma RefangHttp(x: string)
    ensures Refang("hxxp[://]" + x) == "http://" + Refang(x)
  {
    assert ("hxxp[://]" + x)[9..] == x;
  }

  lemma RefangHttps(x: string)
    ensures Refang("hxxps[://]" + x) == "https://" + Refang(x)
  {
    var s := "hxxps[://]" + x;
    assert s[4] == 's' && "hxxp[://]"[4] == '[';
    assert s[10..] == x;
  }

  lemma RefangDot(x: string)
    ensures Refang("[.]" + x) == "." + Refang(x)
  {
    var s := "[.]" + x;
    assert s[0] == '[' && "hxxp[://]"[0] == "hxxps[://]"[0] == 'h';
    assert s[3..] == x;
  }

  lemma RefangOne(c: char, x: string)
    requires !("hxxp[://]" <= [c] + x) && !("hxxps[://]" <= [c] + x) && !("[.]" <= [c] + x)
    ensures Refang([c] + x) == [c] + Refang(x)
  {
    assert ([c] + x)[1..] == x;
  }

  /** A character that is spelled as itself does not complete a token with what follows it. */
  lemma NoFalseToken(c: char, u: string)
    requires ']' !in u
    ensures !("hxxp[://]" <= [c] + Spell(u)) && !("hxxps[://]" <= [c] + Spell(u)) && !("[.]" <= [c] + Spell(u))
  {
    NoLateToken(u, Spell(u));
    SpellHasNoDotFirst(u);
    CompletesToken(c, Spell(u));
  }

  lemma NoLateToken(u: string, x: string)
    requires ']' !in u && x == Spell(u)
    ensures !("xxp[://]" <= x) && !("xxps[://]" <= x)
  {
    if "xxp[://]" <= x {
      BracketFromUrl("xxp[://]", u);
    }
    if "xxps[://]" <= x {
      BracketFromUrl("xxps[://]", u);
    }
  }

  lemma SpellHasNoDotFirst(u: string)
    ensures Spell(u) != "" ==> Spell(u)[0] != '.'
  {
    assert u != "" ==> Token(u)[0] == Spell(u)[0];
  }

  lemma CompletesToken(c: char, x: string)
    requires !("xxp[://]" <= x) && !("xxps[://]" <= x) && (x != "" ==> x[0] != '.')
    ensures !("hxxp[://]" <= [c] + x) && !("hxxps[://]" <= [c] + x) && !("[.]" <= [c] + x)
  {
    ConsPrefix(c, x, 'h', "xxp[://]");
    ConsPrefix(c, x, 'h', "xxps[://]");
    ConsPrefix(c, x, '[', ".]");
    assert ['h'] + "xxp[://]" == "hxxp[://]" && ['h'] + "xxps[://]" == "hxxps[://]" && ['['] + ".]" == "[.]";
  }

  /** Without a scheme inside it, what follows the scheme has its dots bracketed, and nothing else is changed. */
  lemma {:induction false} DotsAreBracketed(s: string)
    requires ':' !in s
    ensures Spell(s) == Bracketed(s)
    decreases |s|
  {
    if s != "" {
      SchemeHasColon(s);
      DotsAreBracketed(s[1..]);
    }
  }

  lemma SchemeHasColon(s: string)
    ensures LowerScheme(s) ==> ':' in s
  {
    assert "http://" <= s ==> s[4] == ':';
    assert "https://" <= s ==> s[5] == ':';
  }

  function Bracketed(s: string): string {
    if s == "" then "" else (if s[0] == '.' then "[.]" else [s[0]]) + Bracketed(s[1..])
  }

  /** What becomes of a URL, spelled out. */
  lemma SchemeIsNeutered(s: string)
    requires ':' !in s
    ensures DefangUrl("http://" + s) == "hxxp[://]" + Bracketed(s)
    ensures DefangUrl("https://" + s) == "hxxps[://]" + Bracketed(s)
  {
    DefangIsSpell("http://" + s);
    DefangIsSpell("https://" + s);
    DotsAreBracketed(s);
    assert ("http://" + s)[7..] == s && ("https://" + s)[8..] == s;
    assert ("https://" + s)[4] == 's';
  }

  /** In a text, a URL reaches up to white space, a quotation mark or a closing bracket, and is replaced by a note. */
  lemma UrlIsNoted(scheme: string, body: string, rest: string)
    requires scheme in ["http://", "https://"] && body != ""
    requires forall i :: 0 <= i < |body| ==> '!' <= body[i] <= '~' && body[i] !in "\"'<>)]"
    requires rest == "" || rest[0] in " \t\r\n\"'<>)]"
    ensures DefangTextLinks(scheme + body + rest) ==
            "[LINK REMOVED: " + DefangUrl(scheme + body) + "]" + DefangTextLinks(rest)
  {
    var url := scheme + body;
    var s := url + rest;
    SchemeStarts(scheme, body, rest, s);
    UrlRuns(s);
    RunOfUrl(url, rest);
    assert s[..|url|] == url && s[|url|..] == rest;
  }

  lemma RunOfUrl(url: string, rest: string)
    requires (forall i :: 0 <= i < |url| ==> !Stops(url[i])) && (rest == "" || Stops(rest[0]))
    ensures RunLength(url + rest, Stops) == |url|
  {
    var s := url + rest;
    assert forall i :: 0 <= i < |url| ==> s[i] == url[i];
    assert rest != "" ==> s[|url|] == rest[0];
  }

  lemma SchemeStarts(scheme: string, body: string, rest: string, s: string)
    requires scheme in ["http://", "https://"] && body != "" && !Stops(body[0]) && s == scheme + body + rest
    ensures UrlAt(s)
  {
    assert s == scheme + (body + rest);
    MatchesItself(scheme, body + rest);
  }

  lemma {:induction false} MatchesItself(p: string, s: string)
    requires s != "" && !Stops(s[0])
    ensures Matches(p, p + s)
  {
    if p == "" {
      assert p + s == s;
    } else {
      assert (p + s)[1..] == p[1..] + s;
      MatchesItself(p[1..], s);
    }
  }

  /** On the URLs the scan produces, which stop at the first "]", defanging loses nothing. */
  lemma DefangIsInvertible(url: string)
    requires Unstopped(url)
    ensures Refang(DefangUrl(url)) == url
  {
    DefangIsSpell(url);
    RefangInvertsSpell(url);
  }

  lemma DefangIsInjective(u: string, v: string)
    requires Unstopped(u) && Unstopped(v) && DefangUrl(u) == DefangUrl(v)
    ensures u == v
  {
    DefangIsInvertible(u);
    DefangIsInvertible(v);
  }
}
