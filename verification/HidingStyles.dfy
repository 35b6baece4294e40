/** Which style attributes hide an element (content_analysis/html_evasion.py), declaration by declaration. */
module HidingStyles {
  import opened Text
  import opened HtmlEvasion

  // ---------- The declarations of a style attribute ----------

  /** Declarations as they are written, with semicolons between them. */
  function Declared(ds: seq<string>): string {
    if ds == [] then "" else if |ds| == 1 then ds[0] else ds[0] + [';'] + Declared(ds[1..])
  }

  ghost predicate Separate(ds: seq<string>) {
    ds != [] && forall k :: 0 <= k < |ds| ==> ';' !in ds[k]
  }

  lemma {:induction false} RulesOfDeclared(ds: seq<string>)
    requires Separate(ds)
    ensures Rules(Declared(ds)) == ds
  {
    if |ds| > 1 {
      RulesOfDeclared(ds[1..]);
      PartitionOf(ds[0], ';', Declared(ds[1..]));
      assert Declared(ds)[|ds[0]|] == ';';
    }
  }

  /** The declaration is a name and a value around its first colon; white space and letter case do not matter. */
  ghost predicate Declares(d: string, name: string, value: string) {
    exists n, v :: DeclaresAs(d, name, value, n, v)
  }

  predicate DeclaresAs(d: string, name: string, value: string, n: string, v: string) {
    d == n + [':'] + v && ':' !in n && Lower(Strip(n)) == name && Lower(Strip(v)) == value
  }

  ghost predicate Mentions(d: string, name: string) {
    exists value :: Declares(d, name, value)
  }

  lemma DeclaredParts(d: string, name: string)
    ensures Mentions(d, name) <==> ':' in d && Lower(Strip(Before(d, ':'))) == name
    ensures forall value :: Declares(d, name, value) ==> value == Lower(Strip(After(d, ':')))
  {
    forall value | Declares(d, name, value)
      ensures ':' in d && Lower(Strip(Before(d, ':'))) == name && value == Lower(Strip(After(d, ':')))
    {
      var n, v :| DeclaresAs(d, name, value, n, v);
      PartitionOf(n, ':', v);
      assert d[|n|] == ':';
    }
    if ':' in d && Lower(Strip(Before(d, ':'))) == name {
      PartitionAt(d, ':');
      assert DeclaresAs(d, name, Lower(Strip(After(d, ':'))), Before(d, ':'), After(d, ':'));
      assert Declares(d, name, Lower(Strip(After(d, ':'))));
    }
  }

  /** The k-th declaration gives the property its value, and none after it mentions the property. */
  ghost predicate LastGives(ds: seq<string>, k: nat, name: string, value: string) {
    k < |ds| && Declares(ds[k], name, value) && forall j :: k < j < |ds| ==> !Mentions(ds[j], name)
  }

  lemma {:induction false} RulesGive(ds: seq<string>, name: string)
    ensures name in ParseRules(ds) <==> exists k :: 0 <= k < |ds| && Mentions(ds[k], name)
    ensures forall k: nat, value :: LastGives(ds, k, name, value) ==>
              name in ParseRules(ds) && ParseRules(ds)[name] == value
  {
    if ds != [] {
      var front, last := ds[..|ds| - 1], ds[|ds| - 1];
      RulesGive(front, name);
      DeclaredParts(last, name);
      forall k: nat, value | LastGives(ds, k, name, value)
        ensures name in ParseRules(ds) && ParseRules(ds)[name] == value
      {
        if k < |front| {
          assert LastGives(front, k, name, value);
          assert !Mentions(ds[|ds| - 1], name);
        }
      }
    }
  }

  /** A property has the value of the last declaration that mentions it, and none without such a declaration. */
  lemma LastDeclarationCounts(ds: seq<string>, name: string)
    requires Separate(ds)
    ensures var styles := ParseStyle(Valued(Declared(ds)));
            && (name in styles <==> exists k :: 0 <= k < |ds| && Mentions(ds[k], name))
            && (forall k: nat, value :: LastGives(ds, k, name, value) ==> Property(styles, name) == value)
  {
    RulesOfDeclared(ds);
    RulesGive(ds, name);
  }

  // ---------- The values that hide ----------

  /** The techniques, first the one that is reported when several apply. */
  const TECHNIQUES := [
    "display:none", "visibility:hidden", "font-size:0", "opacity:0", "off-screen positioning", "color:transparent",
    "color matching background"]

  /** The property, with this value, hides its element by the technique of this rank. */
  predicate HidesAlone(name: string, value: string, rank: nat) {
    || (rank == 0 && name == "display" && value in ["none", "inline-none"])
    || (rank == 1 && name == "visibility" && value == "hidden")
    || (rank == 2 && name == "font-size" && value in ["0", "0px", "0pt", "0em"])
    || (rank == 3 && name == "opacity" && value in ["0", "0.0"])
    || (rank == 4 && name == "left" && Contains(value, "left:-"))
    || (rank == 4 && name == "top" && Contains(value, "top:-999"))
    || (rank == 5 && name == "color" && value == "transparent")
  }

  ghost predicate Applies(styles: Styles, rank: nat) {
    if rank == 6 then
      Property(styles, "color") != "" && Property(styles, "color") == Property(styles, "background-color")
    else exists name :: HidesAlone(name, Property(styles, name), rank)
  }

  lemma AppliesByName(styles: Styles)
    ensures Applies(styles, 0) <==> HidesAlone("display", Property(styles, "display"), 0)
    ensures Applies(styles, 1) <==> HidesAlone("visibility", Property(styles, "visibility"), 1)
    ensures Applies(styles, 2) <==> HidesAlone("font-size", Property(styles, "font-size"), 2)
    ensures Applies(styles, 3) <==> HidesAlone("opacity", Property(styles, "opacity"), 3)
    ensures Applies(styles, 4) <==>
            HidesAlone("left", Property(styles, "left"), 4) || HidesAlone("top", Property(styles, "top"), 4)
    ensures Applies(styles, 5) <==> HidesAlone("color", Property(styles, "color"), 5)
  {
  }

  /** The technique reported is the one of the least rank that applies; if none does, nothing is hidden. */
  lemma FirstTechnique(styles: Styles, rank: nat)
    requires rank < 7 && Applies(styles, rank) && forall r: nat :: r < rank ==> !Applies(styles, r)
    ensures HiddenBy(styles) == Some(TECHNIQUES[rank])
  {
    AppliesByName(styles);
    assert forall r: nat :: r < rank ==> !Applies(styles, r);
    LowerRanks(styles, rank);
  }

  lemma LowerRanks(styles: Styles, rank: nat)
    requires forall r: nat :: r < rank ==> !Applies(styles, r)
    ensures rank > 0 ==> !Applies(styles, 0)
    ensures rank > 1 ==> !Applies(styles, 1)
    ensures rank > 2 ==> !Applies(styles, 2)
    ensures rank > 3 ==> !Applies(styles, 3)
    ensures rank > 4 ==> !Applies(styles, 4)
    ensures rank > 5 ==> !Applies(styles, 5)
    ensures rank > 6 ==> !Applies(styles, 6)
  {
  }

  lemma NoTechnique(styles: Styles)
    requires forall r: nat :: r < 7 ==> !Applies(styles, r)
    ensures HiddenBy(styles) == None
  {
    AppliesByName(styles);
    LowerRanks(styles, 7);
  }

  // ---------- Whole style attributes ----------

  lemma {:induction false} SomeGives(ds: seq<string>, name: string) returns (k: nat, value: string)
    requires exists j :: 0 <= j < |ds| && Mentions(ds[j], name)
    ensures LastGives(ds, k, name, value)
  {
    var last := |ds| - 1;
    if Mentions(ds[last], name) {
      k := last;
      value :| Declares(ds[last], name, value);
    } else {
      var front := ds[..last];
      var j :| 0 <= j < |ds| && Mentions(ds[j], name);
      assert front[j] == ds[j];
      k, value := SomeGives(front, name);
      StillGives(front, ds[last], ds, k, name, value);
    }
  }

  lemma StillGives(front: seq<string>, last: string, ds: seq<string>, k: nat, name: string, value: string)
    requires LastGives(front, k, name, value) && !Mentions(last, name) && ds == front + [last]
    ensures LastGives(ds, k, name, value)
  {
  }

  /** No declaration hides by a technique of a rank below this one. */
  ghost predicate NoneBelow(ds: seq<string>, rank: nat) {
    forall k, name, value, r: nat :: 0 <= k < |ds| && r < rank && Declares(ds[k], name, value) ==>
      !HidesAlone(name, value, r)
  }

  lemma EmptyHidesNothing(name: string, rank: nat)
    ensures !HidesAlone(name, "", rank)
  {
  }

  lemma NoneApplies(ds: seq<string>, styles: Styles, r: nat, rank: nat)
    requires Separate(ds) && styles == ParseStyle(Valued(Declared(ds))) && NoneBelow(ds, rank) && r < rank && r < 6
    ensures !Applies(styles, r)
  {
    forall name
      ensures !HidesAlone(name, Property(styles, name), r)
    {
      LastDeclarationCounts(ds, name);
      if name in styles {
        var k, value := SomeGives(ds, name);
      } else {
        EmptyHidesNothing(name, r);
      }
    }
  }

  /**
   A hiding declaration that is not overridden gives exactly its own technique, wherever it stands
   in the attribute, if none of a lower rank stands there too.
   */
  lemma DeclarationHides(ds: seq<string>, k: nat, name: string, value: string, rank: nat)
    requires Separate(ds) && LastGives(ds, k, name, value) && HidesAlone(name, value, rank) && NoneBelow(ds, rank)
    ensures HiddenBy(ParseStyle(Valued(Declared(ds)))) == Some(TECHNIQUES[rank])
  {
    var styles := ParseStyle(Valued(Declared(ds)));
    LastDeclarationCounts(ds, name);
    assert HidesAlone(name, Property(styles, name), rank);
    forall r: nat | r < rank
      ensures !Applies(styles, r)
    {
      NoneApplies(ds, styles, r, rank);
    }
    FirstTechnique(styles, rank);
  }

  /** The color and the background color are given the same value. */
  ghost predicate SameColors(ds: seq<string>, j: nat, k: nat, value: string) {
    value != "" && LastGives(ds, j, "color", value) && LastGives(ds, k, "background-color", value)
  }

  lemma SameColorsApply(ds: seq<string>)
    requires Separate(ds)
    ensures Applies(ParseStyle(Valued(Declared(ds))), 6) <==> exists j, k, value :: SameColors(ds, j, k, value)
  {
    var styles := ParseStyle(Valued(Declared(ds)));
    LastDeclarationCounts(ds, "color");
    LastDeclarationCounts(ds, "background-color");
    if Applies(styles, 6) {
      var j, value := SomeGives(ds, "color");
      var k, other := SomeGives(ds, "background-color");
      assert SameColors(ds, j, k, value);
    }
  }

  /** Without any such declaration, an element is hidden exactly when it has its background's color. */
  lemma OtherwiseColorsDecide(ds: seq<string>)
    requires Separate(ds) && NoneBelow(ds, 6)
    ensures HiddenBy(ParseStyle(Valued(Declared(ds)))) ==
            if exists j, k, value :: SameColors(ds, j, k, value) then Some("color matching background") else None
  {
    var styles := ParseStyle(Valued(Declared(ds)));
    SameColorsApply(ds);
    forall r: nat | r < 6
      ensures !Applies(styles, r)
    {
      NoneApplies(ds, styles, r, 6);
    }
    if Applies(styles, 6) {
      FirstTechnique(styles, 6);
    } else {
      NoTechnique(styles);
    }
  }

  // ---------- From the attribute to the report ----------

  lemma ThreeEvents(rule: Rule, s: State, a: Event, b: Event, c: Event, s1: State, s2: State, s3: State)
    requires Handle(rule, s, a) == Some(s1) && Handle(rule, s1, b) == Some(s2) && Handle(rule, s2, c) == Some(s3)
    ensures HandleAll(rule, s, [a, b, c]) == Some(s3)
  {
    assert [a, b, c][1..] == [b, c] && [b, c][1..] == [c] && [c][1..] == [];
    assert HandleAll(rule, s3, []) == Some(s3);
    assert HandleAll(rule, s2, [c]) == HandleAll(rule, s3, []);
    assert HandleAll(rule, s1, [b, c]) == HandleAll(rule, s2, [c]);
  }

  /** The state of a parser that has read nothing but one text. */
  function Having(text: string, technique: Option<string>, styles: seq<Styles>, tags: seq<string>): State {
    if technique.None? then State([text], [], {}, styles, tags) else State([], [text], {technique.value}, styles, tags)
  }

  lemma TextIsFiled(rule: Rule, styles: Styles, tag: string, text: string)
    requires Strip(text) == text != ""
    ensures Handle(rule, State([], [], {}, [styles], [tag]), Data(text)) ==
            Some(Having(text, rule.test(styles), [styles], [tag]))
  {
    var technique := rule.test(styles);
    assert [styles][..0] == [];
    assert Innermost(rule, [styles]) == technique;
    Alone(text);
    if technique.Some? {
      assert {} + {technique.value} == {technique.value};
    }
  }

  lemma Alone<T>(x: T)
    ensures [] + [x] == [x] && [x][..0] == []
  {
  }

  lemma TagIsOpened(rule: Rule, tag: string, style: StyleAttr, styles: Styles)
    requires !style.Bare? && styles == ParseStyle(style)
    ensures Handle(rule, START, StartTag(tag, style)) == Some(State([], [], {}, [styles], [tag]))
  {
    Alone(styles);
    Alone(tag);
  }

  lemma TagIsClosed(rule: Rule, tag: string, styles: Styles, text: string, technique: Option<string>)
    ensures Handle(rule, Having(text, technique, [styles], [tag]), EndTag(tag)) == Some(Having(text, technique, [], []))
  {
    Alone(styles);
    Alone(tag);
  }

  lemma ElementIsRead(rule: Rule, tag: string, style: StyleAttr, text: string)
    requires !style.Bare? && Strip(text) == text != ""
    ensures HandleAll(rule, START, [StartTag(tag, style), Data(text), EndTag(tag)]) ==
            Some(Having(text, rule.test(ParseStyle(style)), [], []))
  {
    var styles := ParseStyle(style);
    var technique := rule.test(styles);
    TagIsOpened(rule, tag, style, styles);
    TextIsFiled(rule, styles, tag, text);
    TagIsClosed(rule, tag, styles, text, technique);
    ThreeEvents(rule, START, StartTag(tag, style), Data(text), EndTag(tag), State([], [], {}, [styles], [tag]),
                Having(text, technique, [styles], [tag]), Having(text, technique, [], []));
  }

  lemma FoundIn(text: string, technique: Option<string>)
    requires Strip(text) == text != ""
    ensures FindingOf(Some(Having(text, technique, [], []))) ==
            if technique.None? then Finding(false, "", text, {}) else Finding(true, text, "", {technique.value})
  {
    NothingToStrip("");
  }

  /** The texts of a finding are joined by blanks. */
  lemma {:induction false} TextsAreJoined(a: seq<string>, b: seq<string>)
    requires a != [] && b != []
    ensures Joined(a + b) == Joined(a) + " " + Joined(b)
  {
    if |a| == 1 {
      assert (a + b)[1..] == b;
    } else {
      assert (a + b)[1..] == a[1..] + b;
      TextsAreJoined(a[1..], b);
    }
  }

  /** One element with one text: what is reported about it. */
  lemma ElementIsReported(tag: string, style: StyleAttr, text: string, technique: Option<string>)
    requires !style.Bare? && Strip(text) == text != "" && technique == HiddenBy(ParseStyle(style))
    ensures FindingOf(HandleAll(CSS, START, [StartTag(tag, style), Data(text), EndTag(tag)])) ==
            if technique.None? then Finding(false, "", text, {}) else Finding(true, text, "", {technique.value})
  {
    ElementIsRead(CSS, tag, style, text);
    FoundIn(text, technique);
  }

  /** Later declarations are read too. */
  lemma SecondDeclarationHides(text: string)
    requires text == "color:red;display:none"
    ensures FindingOf(HandleAll(CSS, START, [StartTag("p", Valued(text)), Data("x"), EndTag("p")])) ==
            Finding(true, "x", "", {"display:none"})
  {
    TwoDeclarations(text);
    NothingToStrip("x");
    ElementIsReported("p", Valued(text), "x", Some("display:none"));
  }

  lemma TwoDeclarations(text: string)
    requires text == "color:red;display:none"
    ensures HiddenBy(ParseStyle(Valued(text))) == Some("display:none")
  {
    var first, second := "color:red", "display:none";
    assert text == first + [';'] + second;
    assert "display" + [':'] + "none" == second;
    PlainDeclaration("display", "none");
    HidesBehind(first, second);
  }

  lemma HidesBehind(first: string, second: string)
    requires ';' !in first && ';' !in second && Declares(second, "display", "none")
    ensures HiddenBy(ParseStyle(Valued(first + [';'] + second))) == Some(TECHNIQUES[0])
  {
    var ds := [first, second];
    assert ds[1..] == [second];
    assert LastGives(ds, 1, "display", "none");
    DeclarationHides(ds, 1, "display", "none", 0);
  }

  lemma PlainDeclaration(name: string, value: string)
    requires PlainWord(name) && PlainWord(value)
    ensures Declares(name + [':'] + value, name, value)
  {
    PlainWordStays(name);
    PlainWordStays(value);
    assert DeclaresAs(name + [':'] + value, name, value, name, value);
  }
}
