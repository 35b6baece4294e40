/**
 Detection of text hidden by CSS, content_analysis/html_evasion.py.  The tokenizer is not part
 of this model: the parser's handlers receive its events.
 */
module HtmlEvasion {
  import opened Text

  type Styles = map<string, string>

  // ---------- Style attributes ----------

  /** The style attribute of a start tag; `Bare` is an attribute written without a value. */
  datatype StyleAttr = Absent | Bare | Valued(text: string)

  /** `s.split(";")` */
  function Rules(s: string): seq<string>
    decreases |s|
  {
    if ';' in s then
      AfterShorter(s, ';');
      [Before(s, ';')] + Rules(After(s, ';'))
    else [s]
  }

  function ParseRules(rules: seq<string>): Styles {
    if rules == [] then map[]
    else
      var rest, rule := ParseRules(rules[..|rules| - 1]), rules[|rules| - 1];
      if ':' in rule then rest[Lower(Strip(Before(rule, ':'))) := Lower(Strip(After(rule, ':')))] else rest
  }

  function ParseStyle(style: StyleAttr): Styles {
    ParseRules(Rules(if style.Valued? then style.text else ""))
  }

  function Property(styles: Styles, name: string): string {
    if name in styles then styles[name] else ""
  }

  /** The technique that hides an element with these styles, if one does. */
  function HiddenBy(styles: Styles): Option<string> {
    if Property(styles, "display") in ["none", "inline-none"] then Some("display:none")
    else if Property(styles, "visibility") == "hidden" then Some("visibility:hidden")
    else if Property(styles, "font-size") in ["0", "0px", "0pt", "0em"] then Some("font-size:0")
    else if Property(styles, "opacity") in ["0", "0.0"] then Some("opacity:0")
    else if Contains(Property(styles, "left"), "left:-") || Contains(Property(styles, "top"), "top:-999") then
      Some(OFF_SCREEN)
    else if Property(styles, "color") == "transparent" then Some("color:transparent")
    else if Property(styles, "color") != "" && Property(styles, "color") == Property(styles, "background-color") then
      Some("color matching background")
    else None
  }

  const OFF_SCREEN := "off-screen positioning"

  /** A property value that is free of colons, as every valid length is, is never off-screen. */
  lemma OffScreenNeedsColon(styles: Styles)
    requires HiddenBy(styles) == Some(OFF_SCREEN)
    ensures ':' in Property(styles, "left") || ':' in Property(styles, "top")
  {
    var left, top := Property(styles, "left"), Property(styles, "top");
    if Contains(left, "left:-") {
      var i :| 0 <= i <= |left| - 6 && OccursAt(left, "left:-", i);
      assert left[i + 4] == left[i..i + 6][4] == ':';
    } else {
      var i :| 0 <= i <= |top| - 8 && OccursAt(top, "top:-999", i);
      assert top[i + 3] == top[i..i + 8][3] == ':';
    }
  }

  /** The usual way to move text off the screen is not recognised. */
  lemma NegativeLeftIsNotHidden()
    ensures HiddenBy(map["position" := "absolute", "left" := "-9999px"]) == None
  {
    var styles := map["position" := "absolute", "left" := "-9999px"];
    assert ':' !in Property(styles, "left") && ':' !in Property(styles, "top");
    if HiddenBy(styles) == Some(OFF_SCREEN) {
      OffScreenNeedsColon(styles);
    }
  }

  /** What is recognised is a value that repeats the property name. */
  lemma RepeatedLeftIsHidden()
    ensures HiddenBy(map["left" := "left:-9px"]) == Some(OFF_SCREEN)
  {
    assert "left:-9px"[0..6] == "left:-";
    assert OccursAt("left:-9px", "left:-", 0);
  }

  // ---------- The stack machine ----------

  datatype Event = StartTag(tag: string, style: StyleAttr) | EndTag(tag: string) | Data(text: string)

  /** `test` tells what hides an element, given its styles. */
  datatype Rule = Rule(test: Styles -> Option<string>)

  const CSS := Rule(styles => HiddenBy(styles))

  datatype State = State(
    visible: seq<string>, hidden: seq<string>, techniques: set<string>, styleStack: seq<Styles>, tagStack: seq<string>)

  const START := State([], [], {}, [], [])

  /** The technique of the topmost hidden element on the stack. */
  function Innermost(rule: Rule, stack: seq<Styles>): Option<string> {
    if stack == [] then None
    else
      var top := rule.test(stack[|stack| - 1]);
      if top.Some? then top else Innermost(rule, stack[..|stack| - 1])
  }

  function Pop<T>(stack: seq<T>): seq<T> {
    if stack == [] then [] else stack[..|stack| - 1]
  }

  /** None stands for the exception that a style attribute without a value raises. */
  function Handle(rule: Rule, s: State, e: Event): Option<State> {
    match e
    case StartTag(tag, style) =>
      if style.Bare? then None
      else Some(s.(tagStack := s.tagStack + [tag], styleStack := s.styleStack + [ParseStyle(style)]))
    case EndTag(_) => Some(s.(tagStack := Pop(s.tagStack), styleStack := Pop(s.styleStack)))
    case Data(text) =>
      var chunk, technique := Strip(text), Innermost(rule, s.styleStack);
      if chunk == "" then Some(s)
      else if technique.None? then Some(s.(visible := s.visible + [chunk]))
      else Some(s.(hidden := s.hidden + [chunk], techniques := s.techniques + {technique.value}))
  }

  function HandleAll(rule: Rule, s: State, events: seq<Event>): Option<State>
    decreases |events|
  {
    if events == [] then Some(s)
    else
      var next := Handle(rule, s, events[0]);
      if next.None? then None else HandleAll(rule, next.value, events[1..])
  }

  class EvasionParser {
    const rule: Rule
    var visibleChunks: seq<string>
    var hiddenChunks: seq<string>
    var techniques: set<string>
    var styleStack: seq<Styles>
    var tagStack: seq<string>

    ghost function View(): State
      reads this
    {
      State(visibleChunks, hiddenChunks, techniques, styleStack, tagStack)
    }

    constructor (rule: Rule)
      ensures this.rule == rule && View() == START
    {
      this.rule := rule;
      visibleChunks, hiddenChunks, techniques, styleStack, tagStack := [], [], {}, [], [];
    }

    /** False if the handler raises an exception, which ends the parse. */
    method HandleEvent(event: Event) returns (ok: bool)
      modifies this
      ensures Handle(rule, old(View()), event) == if ok then Some(View()) else None
    {
      match event {
        case StartTag(tag, style) =>
          if style.Bare? {
            return false;
          }
          HandleStartTag(tag, style);
        case EndTag(tag) => HandleEndTag(tag);
        case Data(text) => HandleData(text);
      }
      return true;
    }

    method HandleStartTag(tag: string, style: StyleAttr)
      requires !style.Bare?
      modifies this
      ensures Handle(rule, old(View()), StartTag(tag, style)) == Some(View())
    {
      tagStack := tagStack + [tag];
      styleStack := styleStack + [ParseStyle(style)];
    }

    method HandleEndTag(tag: string)
      modifies this
      ensures Handle(rule, old(View()), EndTag(tag)) == Some(View())
    {
      if tagStack != [] {
        tagStack := tagStack[..|tagStack| - 1];
      }
      if styleStack != [] {
        styleStack := styleStack[..|styleStack| - 1];
      }
    }

    method HandleData(text: string)
      modifies this
      ensures Handle(rule, old(View()), Data(text)) == Some(View())
    {
      if Strip(text) == "" {
        return;
      }
      var technique: Option<string> := None;
      var i := |styleStack|;
      assert styleStack[..i] == styleStack;
      while i > 0
        invariant 0 <= i <= |styleStack|
        invariant technique.None? && View() == old(View())
        invariant Innermost(rule, styleStack[..i]) == Innermost(rule, styleStack)
      {
        i := i - 1;
        technique := rule.test(styleStack[i]);
        assert styleStack[..i + 1][..i] == styleStack[..i];
        if technique.Some? {
          break;
        }
      }
      assert technique == Innermost(rule, styleStack);
      if technique.Some? {
        hiddenChunks := hiddenChunks + [Strip(text)];
        techniques := techniques + {technique.value};
      } else {
        visibleChunks := visibleChunks + [Strip(text)];
      }
    }
  }

  // ---------- What the finding says ----------

  function Joined(chunks: seq<string>): string {
    if chunks == [] then "" else if |chunks| == 1 then chunks[0] else chunks[0] + " " + Joined(chunks[1..])
  }

  datatype Finding = Finding(hasEvasion: bool, hiddenText: string, visibleText: string, techniques: set<string>)

  const NO_FINDING := Finding(false, "", "", {})

  function FindingOf(s: Option<State>): Finding {
    if s.None? then NO_FINDING
    else
      var hiddenText := Strip(Joined(s.value.hidden));
      Finding(hiddenText != "" && s.value.techniques != {}, hiddenText, Strip(Joined(s.value.visible)),
              s.value.techniques)
  }

  method RunParser(rule: Rule, events: seq<Event>) returns (f: Finding)
    ensures f == FindingOf(HandleAll(rule, START, events))
  {
    var parser := new EvasionParser(rule);
    var i := 0;
    while i < |events|
      invariant 0 <= i <= |events| && fresh(parser) && parser.rule == rule
      invariant HandleAll(rule, parser.View(), events[i..]) == HandleAll(rule, START, events)
    {
      assert events[i..][0] == events[i] && events[i..][1..] == events[i + 1..];
      var ok := parser.HandleEvent(events[i]);
      if !ok {
        return NO_FINDING;
      }
      i := i + 1;
    }
    var hiddenText, visibleText := Strip(Joined(parser.hiddenChunks)), Strip(Joined(parser.visibleChunks));
    return Finding(hiddenText != "" && parser.techniques != {}, hiddenText, visibleText, parser.techniques);
  }

  /** `tokenize` turns HTML into the events of its parser. */
  method DetectHtmlEvasion(html: string, tokenize: string -> seq<Event>) returns (f: Finding)
    ensures f == if '<' in html then FindingOf(HandleAll(CSS, START, tokenize(html))) else NO_FINDING
  {
    if html == "" || '<' !in html {
      return NO_FINDING;
    }
    f := RunParser(CSS, tokenize(html));
  }

  /** On every event stream the two stacks keep the same height, and no chunk is blank. */
  ghost predicate Sane(s: State) {
    && |s.tagStack| == |s.styleStack|
    && (forall i :: 0 <= i < |s.hidden| ==> s.hidden[i] != "" && Strip(s.hidden[i]) == s.hidden[i])
    && (s.hidden != [] <==> s.techniques != {})
  }

  lemma {:induction false} StripLeftStarts(s: string, drop: char -> bool)
    ensures StripLeft(s, drop) == "" || !drop(StripLeft(s, drop)[0])
  {
    if s != "" && drop(s[0]) {
      StripLeftStarts(s[1..], drop);
    }
  }

  lemma {:induction false} StripRightEnds(s: string, drop: char -> bool)
    ensures StripRight(s, drop) <= s
    ensures StripRight(s, drop) == "" || !drop(StripRight(s, drop)[|StripRight(s, drop)| - 1])
  {
    if s != "" && drop(s[|s| - 1]) {
      StripRightEnds(s[..|s| - 1], drop);
    }
  }

  lemma StripEnds(s: string)
    ensures var t := Strip(s); t != "" ==> !IsSpace(t[0]) && !IsSpace(t[|t| - 1]) && Strip(t) == t
  {
    var left := StripLeft(s, IsSpace);
    StripLeftStarts(s, IsSpace);
    StripRightEnds(left, IsSpace);
    var t := StripRight(left, IsSpace);
    if t != "" {
      assert t[0] == left[0];
    }
  }

  lemma {:induction false} AlwaysSane(rule: Rule, s: State, events: seq<Event>)
    requires Sane(s)
    ensures var r := HandleAll(rule, s, events); r.Some? ==> Sane(r.value)
    decreases |events|
  {
    if events != [] && Handle(rule, s, events[0]).Some? {
      if events[0].Data? {
        StripEnds(events[0].text);
      }
      AlwaysSane(rule, Handle(rule, s, events[0]).value, events[1..]);
    }
  }

  lemma {:induction false} JoinedIsNotBlank(chunks: seq<string>)
    requires chunks != [] && forall i :: 0 <= i < |chunks| ==> chunks[i] != "" && Strip(chunks[i]) == chunks[i]
    ensures Strip(Joined(chunks)) == Joined(chunks) != ""
    ensures !IsSpace(Joined(chunks)[0]) && !IsSpace(Joined(chunks)[|Joined(chunks)| - 1])
  {
    StripEnds(chunks[0]);
    if |chunks| > 1 {
      JoinedIsNotBlank(chunks[1..]);
    }
  }

  /** Evasion is reported exactly when some text was found hidden. */
  lemma EvasionIffHiddenText(rule: Rule, events: seq<Event>)
    ensures var r := HandleAll(rule, START, events);
            FindingOf(r).hasEvasion <==> r.Some? && r.value.hidden != []
  {
    AlwaysSane(rule, START, events);
    var r := HandleAll(rule, START, events);
    if r.Some? && r.value.hidden != [] {
      JoinedIsNotBlank(r.value.hidden);
    }
  }

  /** One style attribute without a value anywhere makes the whole message look clean. */
  lemma {:induction false} BareStyleHidesEverything(rule: Rule, s: State, events: seq<Event>, i: nat)
    requires i < |events| && events[i].StartTag? && events[i].style.Bare?
    ensures FindingOf(HandleAll(rule, s, events)) == NO_FINDING
    decreases |events|
  {
    if i > 0 && Handle(rule, s, events[0]).Some? {
      BareStyleHidesEverything(rule, Handle(rule, s, events[0]).value, events[1..], i - 1);
    }
  }

  // ---------- Tree semantics ----------

  /** A void element, such as br, is a start tag that has no end tag. */
  datatype Node =
    | Element(tag: string, style: StyleAttr, children: seq<Node>)
    | Void(tag: string, style: StyleAttr)
    | TextNode(text: string)

  predicate NoBareStyle(nodes: seq<Node>) {
    nodes == [] ||
    (NoBareStyle(nodes[1..]) &&
     match nodes[0]
     case TextNode(_) => true
     case Void(_, style) => !style.Bare?
     case Element(_, style, children) => !style.Bare? && NoBareStyle(children))
  }

  function Voids(nodes: seq<Node>): nat {
    if nodes == [] then 0
    else
      (match nodes[0]
       case TextNode(_) => 0
       case Void(_, _) => 1
       case Element(_, _, children) => Voids(children))
      + Voids(nodes[1..])
  }

  /** The events of one node. */
  function EventsOfNode(node: Node): seq<Event> {
    match node
    case TextNode(text) => [Data(text)]
    case Void(tag, style) => [StartTag(tag, style)]
    case Element(tag, style, children) => [StartTag(tag, style)] + EventsOf(children) + [EndTag(tag)]
  }

  /** The events a document gives rise to. */
  function EventsOf(nodes: seq<Node>): seq<Event> {
    if nodes == [] then [] else EventsOfNode(nodes[0]) + EventsOf(nodes[1..])
  }

  /** A non-blank text with the technique of its innermost hidden ancestor, if it has one. */
  datatype Chunk = Chunk(text: string, technique: Option<string>)

  function TextChunk(text: string, technique: Option<string>): seq<Chunk> {
    if Strip(text) == "" then [] else [Chunk(Strip(text), technique)]
  }

  function FirstChunks(rule: Rule, first: Node, inherited: Option<string>): seq<Chunk> {
    match first
    case TextNode(text) => TextChunk(text, inherited)
    case Void(_, _) => []
    case Element(_, style, children) =>
      var own := rule.test(ParseStyle(style));
      Chunks(rule, children, if own.Some? then own else inherited)
  }

  /** The texts of a forest in document order; `inherited` is what already hides the forest. */
  function Chunks(rule: Rule, nodes: seq<Node>, inherited: Option<string>): seq<Chunk> {
    if nodes == [] then []
    else
      FirstChunks(rule, nodes[0], inherited) + Chunks(rule, nodes[1..], inherited)
  }

  lemma ChunksOfOne(rule: Rule, node: Node, inherited: Option<string>)
    ensures Chunks(rule, [node], inherited) == FirstChunks(rule, node, inherited)
  {
    assert [node][1..] == [];
    assert Chunks(rule, [], inherited) == [];
  }

  function HiddenTexts(chunks: seq<Chunk>): seq<string> {
    if chunks == [] then [] else (if chunks[0].technique.Some? then [chunks[0].text] else []) + HiddenTexts(chunks[1..])
  }

  function VisibleTexts(chunks: seq<Chunk>): seq<string> {
    if chunks == [] then []
    else (if chunks[0].technique.Some? then [] else [chunks[0].text]) + VisibleTexts(chunks[1..])
  }

  function TechniquesOf(chunks: seq<Chunk>): set<string> {
    if chunks == [] then {}
    else (if chunks[0].technique.Some? then {chunks[0].technique.value} else {}) + TechniquesOf(chunks[1..])
  }

  function Recorded(s: State, chunks: seq<Chunk>): State {
    s.(hidden := s.hidden + HiddenTexts(chunks), visible := s.visible + VisibleTexts(chunks),
       techniques := s.techniques + TechniquesOf(chunks))
  }

  lemma RecordedTwice(s: State, a: seq<Chunk>, b: seq<Chunk>)
    ensures Recorded(Recorded(s, a), b) == Recorded(s, a + b)
  {
    HiddenOfConcat(a, b);
    VisibleOfConcat(a, b);
    TechniquesOfConcat(a, b);
    Regroup(s.hidden, HiddenTexts(a), HiddenTexts(b));
    Regroup(s.visible, VisibleTexts(a), VisibleTexts(b));
    assert s.techniques + TechniquesOf(a) + TechniquesOf(b) == s.techniques + (TechniquesOf(a) + TechniquesOf(b));
  }

  lemma Regroup(a: seq<string>, b: seq<string>, c: seq<string>)
    ensures a + b + c == a + (b + c)
  {
  }

  lemma {:induction false} HiddenOfConcat(a: seq<Chunk>, b: seq<Chunk>)
    ensures HiddenTexts(a + b) == HiddenTexts(a) + HiddenTexts(b)
  {
    if a == [] {
      assert a + b == b;
    } else {
      assert (a + b)[1..] == a[1..] + b;
      HiddenOfConcat(a[1..], b);
    }
  }

  lemma {:induction false} VisibleOfConcat(a: seq<Chunk>, b: seq<Chunk>)
    ensures VisibleTexts(a + b) == VisibleTexts(a) + VisibleTexts(b)
  {
    if a == [] {
      assert a + b == b;
    } else {
      assert (a + b)[1..] == a[1..] + b;
      VisibleOfConcat(a[1..], b);
    }
  }

  lemma {:induction false} TechniquesOfConcat(a: seq<Chunk>, b: seq<Chunk>)
    ensures TechniquesOf(a + b) == TechniquesOf(a) + TechniquesOf(b)
  {
    if a == [] {
      assert a + b == b;
    } else {
      assert (a + b)[1..] == a[1..] + b;
      TechniquesOfConcat(a[1..], b);
    }
  }

  lemma {:induction false} HandleConcat(rule: Rule, s: State, a: seq<Event>, b: seq<Event>)
    requires HandleAll(rule, s, a).Some?
    ensures HandleAll(rule, s, a + b) == HandleAll(rule, HandleAll(rule, s, a).value, b)
    decreases |a|
  {
    if a == [] {
      assert a + b == b;
    } else {
      assert (a + b)[1..] == a[1..] + b && (a + b)[0] == a[0];
      HandleConcat(rule, Handle(rule, s, a[0]).value, a[1..], b);
    }
  }

  lemma HandleOne(rule: Rule, s: State, e: Event)
    ensures HandleAll(rule, s, [e]) == Handle(rule, s, e)
  {
    assert [e][1..] == [];
  }

  lemma RecordOne(s: State, c: Chunk)
    ensures Recorded(s, []) == s
    ensures Recorded(s, [c]) ==
            if c.technique.Some?
            then s.(hidden := s.hidden + [c.text], techniques := s.techniques + {c.technique.value})
                                else s.(visible := s.visible + [c.text])
  {
    assert [c][1..] == [];
  }

  // ---------- What the machine makes of a document, void elements included ----------

  /** What a node leaves on a stack: an end tag pops whatever is on top, so void elements shift the stack. */
  function LeftoverOf<T>(node: Node, open: (string, StyleAttr) -> T): seq<T> {
    match node
    case TextNode(_) => []
    case Void(tag, style) => [open(tag, style)]
    case Element(tag, style, children) =>
      var inner := [open(tag, style)] + Leftover(children, open);
      inner[..|inner| - 1]
  }

  function Leftover<T>(nodes: seq<Node>, open: (string, StyleAttr) -> T): seq<T> {
    if nodes == [] then [] else LeftoverOf(nodes[0], open) + Leftover(nodes[1..], open)
  }

  function TagOf(): (string, StyleAttr) -> string {
    (tag: string, style: StyleAttr) => tag
  }

  function StyleOf(): (string, StyleAttr) -> Styles {
    (tag: string, style: StyleAttr) => ParseStyle(style)
  }

  function FirstSeen(rule: Rule, first: Node, stack: seq<Styles>): seq<Chunk> {
    match first
    case TextNode(text) => TextChunk(text, Innermost(rule, stack))
    case Void(_, _) => []
    case Element(_, style, children) => Seen(rule, children, stack + [ParseStyle(style)])
  }

  /** The texts of a forest as the machine sees them above this stack. */
  function Seen(rule: Rule, nodes: seq<Node>, stack: seq<Styles>): seq<Chunk> {
    if nodes == [] then []
    else
      FirstSeen(rule, nodes[0], stack) + Seen(rule, nodes[1..], stack + LeftoverOf(nodes[0], StyleOf()))
  }

  function Pushed(s: State, tags: seq<string>, styles: seq<Styles>): State {
    s.(tagStack := s.tagStack + tags, styleStack := s.styleStack + styles)
  }

  function Left(s: State, nodes: seq<Node>): State {
    Pushed(s, Leftover(nodes, TagOf()), Leftover(nodes, StyleOf()))
  }

  lemma {:induction false} LeftoverCountsVoids<T>(nodes: seq<Node>, open: (string, StyleAttr) -> T)
    ensures |Leftover(nodes, open)| == Voids(nodes)
    decreases nodes
  {
    if nodes != [] {
      if nodes[0].Element? {
        LeftoverCountsVoids(nodes[0].children, open);
      }
      LeftoverCountsVoids(nodes[1..], open);
    }
  }

  lemma TextIsRecorded(rule: Rule, s: State, text: string)
    ensures HandleAll(rule, s, [Data(text)]) == Some(Recorded(s, TextChunk(text, Innermost(rule, s.styleStack))))
  {
    HandleOne(rule, s, Data(text));
    RecordOne(s, Chunk(Strip(text), Innermost(rule, s.styleStack)));
  }

  lemma PushedNothing(s: State)
    ensures Pushed(s, [], []) == s
  {
    assert s.tagStack + [] == s.tagStack && s.styleStack + [] == s.styleStack;
  }

  lemma PopOfPushed<T>(stack: seq<T>, first: T, more: seq<T>)
    ensures var inner := [first] + more;
            Pop(stack + [first] + more) == stack + inner[..|inner| - 1]
  {
    var inner := [first] + more;
    assert stack + [first] + more == stack + inner;
  }

  /** An element around events that record some chunks and leave something on the stacks. */
  lemma ElementHandled(rule: Rule, s: State, tag: string, style: StyleAttr, inner: seq<Event>, chunks: seq<Chunk>,
                       tags: seq<string>, styles: seq<Styles>)
    requires !style.Bare?
    requires var open := Pushed(s, [tag], [ParseStyle(style)]);
             HandleAll(rule, open, inner) == Some(Pushed(Recorded(open, chunks), tags, styles))
    ensures var tagsIn, stylesIn := [tag] + tags, [ParseStyle(style)] + styles;
            HandleAll(rule, s, [StartTag(tag, style)] + inner + [EndTag(tag)]) ==
            Some(Pushed(Recorded(s, chunks), tagsIn[..|tags|], stylesIn[..|styles|]))
  {
    var open := Pushed(s, [tag], [ParseStyle(style)]);
    assert [StartTag(tag, style)] + inner + [EndTag(tag)] == [StartTag(tag, style)] + (inner + [EndTag(tag)]);
    assert ([StartTag(tag, style)] + (inner + [EndTag(tag)]))[1..] == inner + [EndTag(tag)];
    HandleConcat(rule, open, inner, [EndTag(tag)]);
    HandleOne(rule, Pushed(Recorded(open, chunks), tags, styles), EndTag(tag));
    PopOfPushed(s.tagStack, tag, tags);
    PopOfPushed(s.styleStack, ParseStyle(style), styles);
  }

  lemma {:induction false} NodeHandled(rule: Rule, s: State, node: Node)
    requires NoBareStyle([node])
    ensures HandleAll(rule, s, EventsOfNode(node)) ==
            Some(Pushed(Recorded(s, Seen(rule, [node], s.styleStack)), LeftoverOf(node, TagOf()),
                        LeftoverOf(node, StyleOf())))
    decreases node, 1
  {
    assert [node][1..] == [];
    match node {
      case TextNode(text) =>
        TextIsRecorded(rule, s, text);
        var chunks := TextChunk(text, Innermost(rule, s.styleStack));
        assert Seen(rule, [node], s.styleStack) == chunks + [] == chunks;
        PushedNothing(Recorded(s, chunks));
      case Void(tag, style) =>
        HandleOne(rule, s, StartTag(tag, style));
        assert Recorded(s, []) == s;
      case Element(tag, style, children) =>
        var open := Pushed(s, [tag], [ParseStyle(style)]);
        var chunks := Seen(rule, children, open.styleStack);
        MachineIsExact(rule, open, children);
        ElementHandled(rule, s, tag, style, EventsOf(children), chunks, Leftover(children, TagOf()),
                       Leftover(children, StyleOf()));
        assert chunks + [] == chunks;
    }
  }

  lemma SeenFirst(rule: Rule, nodes: seq<Node>, stack: seq<Styles>)
    requires nodes != []
    ensures Seen(rule, nodes, stack) ==
            Seen(rule, [nodes[0]], stack) + Seen(rule, nodes[1..], stack + LeftoverOf(nodes[0], StyleOf()))
  {
    assert [nodes[0]][1..] == [];
  }

  lemma PushedTwice(s: State, a: seq<Chunk>, tags: seq<string>, styles: seq<Styles>,
                    b: seq<Chunk>, moreTags: seq<string>, moreStyles: seq<Styles>)
    ensures Pushed(Recorded(Pushed(Recorded(s, a), tags, styles), b), moreTags, moreStyles) ==
            Pushed(Recorded(s, a + b), tags + moreTags, styles + moreStyles)
  {
    RecordedTwice(s, a, b);
    assert s.tagStack + tags + moreTags == s.tagStack + (tags + moreTags);
    assert s.styleStack + styles + moreStyles == s.styleStack + (styles + moreStyles);
  }

  /** On the events of any forest without a bare style the machine records what it sees and keeps the leftovers. */
  lemma {:induction false} MachineIsExact(rule: Rule, s: State, nodes: seq<Node>)
    requires NoBareStyle(nodes)
    ensures HandleAll(rule, s, EventsOf(nodes)) == Some(Left(Recorded(s, Seen(rule, nodes, s.styleStack)), nodes))
    decreases nodes, 0
  {
    if nodes == [] {
      assert Recorded(s, []) == s && s.tagStack + [] == s.tagStack && s.styleStack + [] == s.styleStack;
    } else {
      var first, rest := nodes[0], nodes[1..];
      var chunks := Seen(rule, [first], s.styleStack);
      var tags, styles := LeftoverOf(first, TagOf()), LeftoverOf(first, StyleOf());
      var next := Pushed(Recorded(s, chunks), tags, styles);
      assert [first][1..] == [];
      NodeHandled(rule, s, first);
      HandleConcat(rule, s, EventsOfNode(first), EventsOf(rest));
      MachineIsExact(rule, next, rest);
      SeenFirst(rule, nodes, s.styleStack);
      PushedTwice(s, chunks, tags, styles, Seen(rule, rest, next.styleStack), Leftover(rest, TagOf()),
                  Leftover(rest, StyleOf()));
    }
  }

  /** The stacks grow by one entry for each void element, so they are restored exactly when there is none. */
  lemma VoidsShiftTheStacks(rule: Rule, s: State, nodes: seq<Node>)
    requires NoBareStyle(nodes)
    ensures var r := HandleAll(rule, s, EventsOf(nodes));
            && r.Some? && |r.value.styleStack| == |s.styleStack| + Voids(nodes)
            && |r.value.tagStack| == |s.tagStack| + Voids(nodes)
            && (r.value.styleStack == s.styleStack && r.value.tagStack == s.tagStack <==> Voids(nodes) == 0)
  {
    MachineIsExact(rule, s, nodes);
    LeftoverCountsVoids(nodes, TagOf());
    LeftoverCountsVoids(nodes, StyleOf());
    if Voids(nodes) == 0 {
      assert s.styleStack + [] == s.styleStack && s.tagStack + [] == s.tagStack;
    }
  }

  // ---------- When that is what the tree says ----------

  ghost predicate NothingHides(rule: Rule, styles: seq<Styles>) {
    forall i :: 0 <= i < |styles| ==> rule.test(styles[i]).None?
  }

  /** No node leaves a hiding style behind for the texts that follow it. */
  ghost predicate Harmless(rule: Rule, nodes: seq<Node>) {
    nodes == [] ||
    (NothingHides(rule, LeftoverOf(nodes[0], StyleOf())) && Harmless(rule, nodes[1..])
     && (nodes[0].Element? ==> Harmless(rule, nodes[0].children)))
  }

  lemma {:induction false} InnermostAbove(rule: Rule, stack: seq<Styles>, more: seq<Styles>)
    ensures NothingHides(rule, more) ==> Innermost(rule, stack + more) == Innermost(rule, stack)
    ensures !NothingHides(rule, more) ==> Innermost(rule, stack + more) == Innermost(rule, more) != None
    decreases |more|
  {
    if more == [] {
      assert stack + more == stack;
    } else {
      var front := more[..|more| - 1];
      assert (stack + more)[..|stack + more| - 1] == stack + front;
      InnermostAbove(rule, stack, front);
      assert forall i :: 0 <= i < |front| ==> front[i] == more[i];
    }
  }

  lemma {:induction false} SeenIsInherited(rule: Rule, nodes: seq<Node>, stack: seq<Styles>)
    requires Harmless(rule, nodes)
    ensures Seen(rule, nodes, stack) == Chunks(rule, nodes, Innermost(rule, stack))
    decreases nodes
  {
    if nodes != [] {
      InnermostAbove(rule, stack, LeftoverOf(nodes[0], StyleOf()));
      SeenIsInherited(rule, nodes[1..], stack + LeftoverOf(nodes[0], StyleOf()));
      if nodes[0].Element? {
        var styles := ParseStyle(nodes[0].style);
        assert (stack + [styles])[..|stack|] == stack;
        SeenIsInherited(rule, nodes[0].children, stack + [styles]);
      }
    }
  }

  lemma {:induction false} BalancedIsHarmless(rule: Rule, nodes: seq<Node>)
    requires Voids(nodes) == 0
    ensures Harmless(rule, nodes)
    decreases nodes
  {
    if nodes != [] {
      BalancedIsHarmless(rule, nodes[1..]);
      if nodes[0].Element? {
        BalancedIsHarmless(rule, nodes[0].children);
        LeftoverCountsVoids(nodes[0].children, StyleOf());
      }
    }
  }

  lemma {:induction false} EventsOfConcat(a: seq<Node>, b: seq<Node>)
    ensures EventsOf(a + b) == EventsOf(a) + EventsOf(b)
    decreases |a|
  {
    if a == [] {
      assert a + b == b;
    } else {
      assert (a + b)[1..] == a[1..] + b;
      EventsOfConcat(a[1..], b);
    }
  }

  /** A text that follows a document is hidden exactly when the document leaves a hiding style behind. */
  lemma TextAfterDocument(rule: Rule, nodes: seq<Node>, text: string)
    requires NoBareStyle(nodes) && Strip(text) != ""
    ensures var before := HandleAll(rule, START, EventsOf(nodes));
            var after := HandleAll(rule, START, EventsOf(nodes + [TextNode(text)]));
            && before.Some? && after.Some?
            && after.value.hidden ==
               before.value.hidden + if NothingHides(rule, Leftover(nodes, StyleOf())) then [] else [Strip(text)]
  {
    MachineIsExact(rule, START, nodes);
    var s := HandleAll(rule, START, EventsOf(nodes)).value;
    EventsOfConcat(nodes, [TextNode(text)]);
    assert [TextNode(text)][1..] == [];
    assert EventsOf([TextNode(text)]) == [Data(text)] + [] == [Data(text)];
    HandleConcat(rule, START, EventsOf(nodes), [Data(text)]);
    HandleOne(rule, s, Data(text));
    InnermostAbove(rule, [], Leftover(nodes, StyleOf()));
    assert [] + Leftover(nodes, StyleOf()) == Leftover(nodes, StyleOf());
  }

  // ---------- Exactly when the visible text is right ----------

  /** No text that nothing hides comes after a node that leaves a hiding style behind. */
  ghost predicate ReadsRight(rule: Rule, nodes: seq<Node>) {
    nodes == [] ||
    ((nodes[0].Element? && rule.test(ParseStyle(nodes[0].style)).None? ==> ReadsRight(rule, nodes[0].children))
     && if NothingHides(rule, LeftoverOf(nodes[0], StyleOf())) then ReadsRight(rule, nodes[1..])
        else VisibleTexts(Chunks(rule, nodes[1..], None)) == [])
  }

  lemma {:induction false} NothingShownWhenHidden(rule: Rule, nodes: seq<Node>, stack: seq<Styles>, technique: string)
    requires Innermost(rule, stack).Some?
    ensures VisibleTexts(Seen(rule, nodes, stack)) == [] && VisibleTexts(Chunks(rule, nodes, Some(technique))) == []
    decreases nodes
  {
    if nodes != [] {
      var first, rest := nodes[0], nodes[1..];
      var left := LeftoverOf(first, StyleOf());
      InnermostAbove(rule, stack, left);
      NothingShownWhenHidden(rule, rest, stack + left, technique);
      if first.Element? {
        var styles := ParseStyle(first.style);
        var own := rule.test(styles);
        InnermostAbove(rule, stack, [styles]);
        NothingShownWhenHidden(rule, first.children, stack + [styles], if own.Some? then own.value else technique);
      }
      VisibleOfConcat(FirstSeen(rule, first, stack), Seen(rule, rest, stack + left));
      VisibleOfConcat(FirstChunks(rule, first, Some(technique)), Chunks(rule, rest, Some(technique)));
    }
  }

  lemma PartsAgree(a: seq<string>, b: seq<string>, c: seq<string>, d: seq<string>)
    requires |a| <= |c| && |b| <= |d|
    ensures |a + b| <= |c + d| && (a + b == c + d <==> a == c && b == d)
  {
    if a + b == c + d {
      assert |a| == |c| && |b| == |d|;
      assert a == (a + b)[..|a|] && c == (c + d)[..|c|];
      assert b == (a + b)[|a|..] && d == (c + d)[|c|..];
    }
  }

  /**
   Above a stack that hides nothing the machine shows at most what the tree shows, and the same exactly under
   that condition.
   */
  lemma {:induction false} ShownIffReadsRight(rule: Rule, nodes: seq<Node>, stack: seq<Styles>)
    requires Innermost(rule, stack).None?
    ensures var shown, right := VisibleTexts(Seen(rule, nodes, stack)), VisibleTexts(Chunks(rule, nodes, None));
            |shown| <= |right| && (shown == right <==> ReadsRight(rule, nodes))
    decreases nodes
  {
    if nodes != [] {
      var first, rest := nodes[0], nodes[1..];
      var left := LeftoverOf(first, StyleOf());
      FirstShown(rule, first, stack);
      InnermostAbove(rule, stack, left);
      if NothingHides(rule, left) {
        ShownIffReadsRight(rule, rest, stack + left);
      } else {
        NothingShownWhenHidden(rule, rest, stack + left, "");
      }
      VisibleOfConcat(FirstSeen(rule, first, stack), Seen(rule, rest, stack + left));
      VisibleOfConcat(FirstChunks(rule, first, None), Chunks(rule, rest, None));
      PartsAgree(VisibleTexts(FirstSeen(rule, first, stack)), VisibleTexts(Seen(rule, rest, stack + left)),
                 VisibleTexts(FirstChunks(rule, first, None)), VisibleTexts(Chunks(rule, rest, None)));
    }
  }

  lemma {:induction false} FirstShown(rule: Rule, first: Node, stack: seq<Styles>)
    requires Innermost(rule, stack).None?
    ensures var shown := VisibleTexts(FirstSeen(rule, first, stack));
            var right := VisibleTexts(FirstChunks(rule, first, None));
            && |shown| <= |right|
            && (shown == right <==>
                (first.Element? && rule.test(ParseStyle(first.style)).None? ==> ReadsRight(rule, first.children)))
    decreases first
  {
    if first.Element? {
      var styles := ParseStyle(first.style);
      var own := rule.test(styles);
      InnermostAbove(rule, stack, [styles]);
      if own.Some? {
        assert !NothingHides(rule, [styles]);
        NothingShownWhenHidden(rule, first.children, stack + [styles], own.value);
      } else {
        assert NothingHides(rule, [styles]);
        ShownIffReadsRight(rule, first.children, stack + [styles]);
      }
    }
  }

  /** The same texts, and what the second list hides the first hides too. */
  ghost predicate Covers(a: seq<Chunk>, b: seq<Chunk>) {
    |a| == |b| && forall i :: 0 <= i < |a| ==> a[i].text == b[i].text && (b[i].technique.Some? ==> a[i].technique.Some?)
  }

  ghost predicate HidesTheSame(a: seq<Chunk>, b: seq<Chunk>) {
    |a| == |b| && forall i :: 0 <= i < |a| ==> (a[i].technique.Some? <==> b[i].technique.Some?)
  }

  lemma {:induction false} CoverCounts(a: seq<Chunk>, b: seq<Chunk>)
    requires Covers(a, b)
    ensures |VisibleTexts(a)| <= |VisibleTexts(b)| && (|VisibleTexts(a)| == |VisibleTexts(b)| <==> HidesTheSame(a, b))
    ensures HidesTheSame(a, b) ==> VisibleTexts(a) == VisibleTexts(b) && HiddenTexts(a) == HiddenTexts(b)
    ensures |HiddenTexts(a)| + |VisibleTexts(a)| == |a| && |HiddenTexts(b)| + |VisibleTexts(b)| == |b|
  {
    if a != [] {
      var restA, restB := a[1..], b[1..];
      assert forall i :: 0 <= i < |restA| ==> restA[i] == a[i + 1] && restB[i] == b[i + 1];
      assert forall i :: 1 <= i < |a| ==> a[i] == restA[i - 1] && b[i] == restB[i - 1];
      CoverCounts(restA, restB);
    }
  }

  /** The two lists show the same exactly when they hide the same. */
  lemma CoverAgrees(a: seq<Chunk>, b: seq<Chunk>)
    requires Covers(a, b)
    ensures VisibleTexts(a) == VisibleTexts(b) <==> HiddenTexts(a) == HiddenTexts(b)
    ensures HiddenTexts(a) == [] <==> HiddenTexts(b) == [] && VisibleTexts(a) == VisibleTexts(b)
  {
    CoverCounts(a, b);
  }

  lemma CoversConcat(a: seq<Chunk>, b: seq<Chunk>, c: seq<Chunk>, d: seq<Chunk>)
    requires Covers(a, c) && Covers(b, d)
    ensures Covers(a + b, c + d)
  {
  }

  /** The machine sees the texts of the tree, in their order, and hides whatever the tree hides. */
  lemma {:induction false} SeenCovers(rule: Rule, nodes: seq<Node>, stack: seq<Styles>, inherited: Option<string>)
    requires inherited.Some? ==> Innermost(rule, stack).Some?
    ensures Covers(Seen(rule, nodes, stack), Chunks(rule, nodes, inherited))
    decreases nodes
  {
    if nodes != [] {
      var first, rest := nodes[0], nodes[1..];
      var left := LeftoverOf(first, StyleOf());
      InnermostAbove(rule, stack, left);
      SeenCovers(rule, rest, stack + left, inherited);
      FirstCovers(rule, first, stack, inherited);
      CoversConcat(FirstSeen(rule, first, stack), Seen(rule, rest, stack + left),
                   FirstChunks(rule, first, inherited), Chunks(rule, rest, inherited));
    }
  }

  lemma {:induction false} FirstCovers(rule: Rule, first: Node, stack: seq<Styles>, inherited: Option<string>)
    requires inherited.Some? ==> Innermost(rule, stack).Some?
    ensures Covers(FirstSeen(rule, first, stack), FirstChunks(rule, first, inherited))
    decreases first
  {
    if first.Element? {
      var styles := ParseStyle(first.style);
      var own := rule.test(styles);
      InnermostAbove(rule, stack, [styles]);
      assert own.Some? ==> !NothingHides(rule, [styles]);
      SeenCovers(rule, first.children, stack + [styles], if own.Some? then own else inherited);
    }
  }

  /** The machine shows and hides what the tree does exactly when no shown text follows a hiding leftover. */
  lemma SeenAgrees(rule: Rule, nodes: seq<Node>)
    ensures var seen, right := Seen(rule, nodes, []), Chunks(rule, nodes, None);
            && (VisibleTexts(seen) == VisibleTexts(right) <==> ReadsRight(rule, nodes))
            && (HiddenTexts(seen) == HiddenTexts(right) <==> ReadsRight(rule, nodes))
            && (HiddenTexts(seen) == [] <==> HiddenTexts(right) == [] && ReadsRight(rule, nodes))
  {
    ShownIffReadsRight(rule, nodes, []);
    SeenCovers(rule, nodes, [], None);
    CoverAgrees(Seen(rule, nodes, []), Chunks(rule, nodes, None));
  }

  /**
   If no node leaves a hiding style behind, the machine puts every non-blank text, in document
   order, into the list its innermost hidden ancestor calls for.
   */
  lemma MachineFollowsTree(rule: Rule, s: State, nodes: seq<Node>)
    requires NoBareStyle(nodes) && Harmless(rule, nodes)
    ensures HandleAll(rule, s, EventsOf(nodes)) ==
            Some(Left(Recorded(s, Chunks(rule, nodes, Innermost(rule, s.styleStack))), nodes))
  {
    MachineIsExact(rule, s, nodes);
    SeenIsInherited(rule, nodes, s.styleStack);
  }

  /**
   For a document without a bare style: the visible text and the hidden text are those of the tree
   exactly when no shown text follows a hiding leftover; the techniques too, if there is no such
   leftover; and both stacks end with one entry for each void element.
   */
  lemma DocumentIsClassified(nodes: seq<Node>)
    requires NoBareStyle(nodes)
    ensures var chunks, r := Chunks(CSS, nodes, None), HandleAll(CSS, START, EventsOf(nodes));
            && r.Some?
            && (r.value.visible == VisibleTexts(chunks) <==> ReadsRight(CSS, nodes))
            && (r.value.hidden == HiddenTexts(chunks) <==> ReadsRight(CSS, nodes))
            && (Harmless(CSS, nodes) ==> r.value.techniques == TechniquesOf(chunks))
            && |r.value.styleStack| == |r.value.tagStack| == Voids(nodes)
  {
    MachineIsExact(CSS, START, nodes);
    VoidsShiftTheStacks(CSS, START, nodes);
    RecordedFromStart(Seen(CSS, nodes, []));
    SeenAgrees(CSS, nodes);
    if Harmless(CSS, nodes) {
      SeenIsInherited(CSS, nodes, []);
    }
  }

  /** If every start tag has its end tag, no leftover hides anything. */
  lemma BalancedReadsRight(nodes: seq<Node>)
    requires Voids(nodes) == 0
    ensures Harmless(CSS, nodes) && ReadsRight(CSS, nodes)
  {
    BalancedIsHarmless(CSS, nodes);
    SeenIsInherited(CSS, nodes, []);
    SeenAgrees(CSS, nodes);
  }

  lemma RecordedFromStart(chunks: seq<Chunk>)
    ensures Recorded(START, chunks) == State(VisibleTexts(chunks), HiddenTexts(chunks), TechniquesOf(chunks), [], [])
  {
    assert [] + VisibleTexts(chunks) == VisibleTexts(chunks) && [] + HiddenTexts(chunks) == HiddenTexts(chunks);
    assert {} + TechniquesOf(chunks) == TechniquesOf(chunks);
  }

  // ---------- When hidden text is reported ----------

  lemma {:induction false} BareInEvents(nodes: seq<Node>) returns (i: nat)
    requires !NoBareStyle(nodes)
    ensures i < |EventsOf(nodes)| && EventsOf(nodes)[i].StartTag? && EventsOf(nodes)[i].style.Bare?
    decreases nodes
  {
    var first := nodes[0];
    if !NoBareStyle(nodes[1..]) {
      var j := BareInEvents(nodes[1..]);
      i := |EventsOfNode(first)| + j;
    } else if first.style.Bare? {
      i := 0;
    } else {
      var j := BareInEvents(first.children);
      i := 1 + j;
      assert EventsOfNode(first)[i] == EventsOf(first.children)[j];
    }
  }

  /**
   Evasion is reported exactly when no style attribute lacks its value and either some text has a
   hidden ancestor or a shown text follows a hiding leftover.
   */
  lemma ReportedIffHiddenOrMisread(nodes: seq<Node>)
    ensures FindingOf(HandleAll(CSS, START, EventsOf(nodes))).hasEvasion <==>
            NoBareStyle(nodes) && (HiddenTexts(Chunks(CSS, nodes, None)) != [] || !ReadsRight(CSS, nodes))
  {
    EvasionIffHiddenText(CSS, EventsOf(nodes));
    if NoBareStyle(nodes) {
      MachineIsExact(CSS, START, nodes);
      RecordedFromStart(Seen(CSS, nodes, []));
      SeenAgrees(CSS, nodes);
    } else {
      var i := BareInEvents(nodes);
      BareStyleHidesEverything(CSS, START, EventsOf(nodes), i);
    }
  }

  const DISPLAY_NONE := Valued("display" + ":" + "none")

  lemma SingleRule(name: string, value: string)
    requires ';' !in name + ":" + value && ':' !in name
    ensures ParseStyle(Valued(name + ":" + value)) == map[Lower(Strip(name)) := Lower(Strip(value))]
  {
    var rule := name + [':'] + value;
    PartitionOf(name, ':', value);
    assert rule == name + ":" + value && rule[|name|] == ':';
    var rules: seq<string> := Rules(rule);
    assert rules == [rule] && rules[..0] == [];
    assert ParseRules(rules[..0]) == map[];
  }

  predicate PlainWord(word: string) {
    word != "" && forall i :: 0 <= i < |word| ==> 'a' <= word[i] <= 'z'
  }

  lemma PlainWordStays(word: string)
    requires PlainWord(word)
    ensures Lower(Strip(word)) == word
  {
    NothingToStrip(word);
  }

  lemma PlainRule(name: string, value: string)
    requires PlainWord(name) && PlainWord(value)
    ensures ParseStyle(Valued(name + ":" + value)) == map[name := value]
  {
    SingleRule(name, value);
    PlainWordStays(name);
    PlainWordStays(value);
  }

  lemma NoDisplayHides(styles: Styles)
    requires Property(styles, "display") == "none"
    ensures HiddenBy(styles) == Some("display:none")
  {
  }

  lemma DisplayNoneHides()
    ensures HiddenBy(ParseStyle(DISPLAY_NONE)) == Some("display:none")
  {
    assert PlainWord("display") && PlainWord("none");
    PlainRule("display", "none");
    NoDisplayHides(ParseStyle(DISPLAY_NONE));
  }

  lemma HiddenElement(rule: Rule, tag: string, style: StyleAttr, text: string, other: Node)
    requires rule.test(ParseStyle(style)).Some? && Strip(text) == text != "" && other.Element? && other.children == []
    ensures HiddenTexts(Chunks(rule, [Element(tag, style, [TextNode(text)]), other], None)) == [text]
  {
    var child, element := TextNode(text), Element(tag, style, [TextNode(text)]);
    var technique := rule.test(ParseStyle(style));
    assert [child][1..] == [] && [element, other][1..] == [other] && [other][1..] == [];
    ChunksOfOne(rule, child, technique);
    ChunksOfOne(rule, other, None);
    assert Chunks(rule, other.children, rule.test(ParseStyle(other.style))) == [];
    assert [Chunk(text, technique)][1..] == [];
  }

  /** A hidden text next to an element with a bare style attribute is not reported. */
  lemma HiddenButNotReported()
    ensures var nodes := [Element("div", DISPLAY_NONE, [TextNode("x")]), Element("p", Bare, [])];
            && HiddenTexts(Chunks(CSS, nodes, None)) == ["x"]
            && FindingOf(HandleAll(CSS, START, EventsOf(nodes))) == NO_FINDING
  {
    var p := Element("p", Bare, []);
    DisplayNoneHides();
    NothingToStrip("x");
    HiddenElement(CSS, "div", DISPLAY_NONE, "x", p);
    AnyBareStyle([Element("div", DISPLAY_NONE, [TextNode("x")]), p]);
  }

  lemma AnyBareStyle(nodes: seq<Node>)
    requires nodes != [] && !NoBareStyle([nodes[|nodes| - 1]])
    ensures FindingOf(HandleAll(CSS, START, EventsOf(nodes))) == NO_FINDING
  {
    LastStyleCounts(nodes);
    var i := BareInEvents(nodes);
    BareStyleHidesEverything(CSS, START, EventsOf(nodes), i);
  }

  lemma {:induction false} LastStyleCounts(nodes: seq<Node>)
    requires nodes != [] && !NoBareStyle([nodes[|nodes| - 1]])
    ensures !NoBareStyle(nodes)
  {
    if |nodes| == 1 {
      assert nodes == [nodes[0]];
    } else {
      LastStyleCounts(nodes[1..]);
    }
  }

  /** A document of one element around a void one, and what it leaves on the stack. */
  lemma ElementAroundVoid(rule: Rule, tag: string, style: StyleAttr, void: string)
    requires !style.Bare?
    ensures var nodes := [Element(tag, style, [Void(void, Absent)])];
            && NoBareStyle(nodes) && Leftover(nodes, StyleOf()) == [ParseStyle(style)] && Seen(rule, nodes, []) == []
            && Chunks(rule, nodes, None) == []
  {
    var inner := [Void(void, Absent)];
    var nodes := [Element(tag, style, inner)];
    assert inner[1..] == [] && nodes[1..] == [];
    assert NoBareStyle(inner);
    assert Leftover(inner, StyleOf()) == [ParseStyle(Absent)] + Leftover([], StyleOf()) == [ParseStyle(Absent)];
    var entered := [ParseStyle(style)] + Leftover(inner, StyleOf());
    assert LeftoverOf(nodes[0], StyleOf()) == entered[..1] == [ParseStyle(style)];
    assert Leftover(nodes, StyleOf()) == LeftoverOf(nodes[0], StyleOf()) + Leftover([], StyleOf());
    assert Seen(rule, inner, [] + [ParseStyle(style)]) == [];
    ChunksOfOne(rule, inner[0], rule.test(ParseStyle(style)));
    ChunksOfOne(rule, nodes[0], None);
  }

  lemma VisibleTextAfter(rule: Rule, first: Node, text: string)
    requires Chunks(rule, [first], None) == []
    ensures HiddenTexts(Chunks(rule, [first, TextNode(text)], None)) == []
  {
    assert [first][1..] == [] && [first, TextNode(text)][1..] == [TextNode(text)] && [TextNode(text)][1..] == [];
    var rest := Chunks(rule, [TextNode(text)], None);
    ChunksOfOne(rule, first, None);
    ChunksOfOne(rule, TextNode(text), None);
    assert Chunks(rule, [first, TextNode(text)], None) == rest;
    assert rest != [] ==> rest[1..] == [];
  }

  /** A hidden element around a void one hides the text after it. */
  lemma VoidInHiddenElement(rule: Rule, tag: string, style: StyleAttr, void: string, text: string)
    requires rule.test(ParseStyle(style)).Some? && !style.Bare? && Strip(text) == text != ""
    ensures var nodes := [Element(tag, style, [Void(void, Absent)]), TextNode(text)];
            && HiddenTexts(Chunks(rule, nodes, None)) == []
            && HandleAll(rule, START, EventsOf(nodes)).Some?
            && HandleAll(rule, START, EventsOf(nodes)).value.hidden == [text]
  {
    var element, x := Element(tag, style, [Void(void, Absent)]), TextNode(text);
    ElementAroundVoid(rule, tag, style, void);
    VisibleTextAfter(rule, element, text);
    MachineIsExact(rule, START, [element]);
    TextAfterDocument(rule, [element], text);
    assert rule.test(Leftover([element], StyleOf())[0]).Some?;
    assert [element] + [x] == [element, x];
  }

  /** A br inside a hidden div makes the machine hide the text after the div, which nothing hides. */
  lemma VoidHidesVisibleText()
    ensures var nodes := [Element("div", DISPLAY_NONE, [Void("br", Absent)]), TextNode("x")];
            && HiddenTexts(Chunks(CSS, nodes, None)) == []
            && HandleAll(CSS, START, EventsOf(nodes)).Some?
            && HandleAll(CSS, START, EventsOf(nodes)).value.hidden == ["x"]
  {
    DisplayNoneHides();
    NothingToStrip("x");
    VoidInHiddenElement(CSS, "div", DISPLAY_NONE, "br", "x");
  }
}
