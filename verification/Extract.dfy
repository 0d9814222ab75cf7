/** The HTML-to-markdown extractor: a stack automaton over parser events that drops the contents of
    suppressed elements, and the renderer of the parts it collects. */
module Extract {
  import opened Strings
  import opened Wrappers

  const DROP_CONTENT_TAGS := {"script", "style", "noscript", "template", "head", "svg"}
  const BLOCK_TAGS := {
    "p", "div", "section", "article", "li", "br", "h1", "h2", "h3", "h4", "h5", "h6", "tr", "blockquote", "pre"
  }

  const NEWLINE := "\n"

  // ---------- hidden elements ----------

  type Attribute = (string, Option<string>)

  /** A style property, the value that hides an element, and whether a dot may not follow it. */
  datatype Declaration = Declaration(property: string, value: string, noDot: bool)

  const HIDING := [
    Declaration("display", "none", false), Declaration("visibility", "hidden", false),
    Declaration("opacity", "0", true), Declaration("font-size", "0", false)
  ]

  predicate Follows(d: Declaration, s: string) {
    StartsFolded(s, d.value) && !(d.noDot && |s| > |d.value| && s[|d.value|] == '.')
  }

  /** Where white space from `i` on ends. */
  function SkipSpaces(s: string, i: nat): (j: nat)
    requires i <= |s|
    ensures i <= j <= |s| && (forall m | i <= m < j :: IsSpace(s[m])) && (j < |s| ==> !IsSpace(s[j]))
    decreases |s| - i
  {
    if i < |s| && IsSpace(s[i]) then SkipSpaces(s, i + 1) else i
  }

  /** A match of the declaration at the head of `s`, with any white space around the colon. */
  predicate Declares(d: Declaration, s: string) {
    && StartsFolded(s, d.property)
    && var j := SkipSpaces(s, |d.property|);
    j < |s| && s[j] == ':' && Follows(d, s[SkipSpaces(s, j + 1)..])
  }

  predicate HidingStyle(style: string) {
    exists i, d | 0 <= i <= |style| && d in HIDING :: Declares(d, style[i..])
  }

  /** Whether one attribute hides its element; `lower` is Python's. */
  predicate Hides(lower: string -> string, a: Attribute) {
    var name := lower(a.0);
    || name == "hidden"
    || (name == "aria-hidden" && a.1.Some? && lower(a.1.value) == "true")
    || (name == "style" && a.1.Some? && HidingStyle(a.1.value))
  }

  predicate IsHidden(lower: string -> string, attrs: seq<Attribute>) {
    exists i | 0 <= i < |attrs| :: Hides(lower, attrs[i])
  }

  method CheckHidden(lower: string -> string, attrs: seq<Attribute>) returns (hidden: bool)
    ensures hidden <==> IsHidden(lower, attrs)
  {
    for i := 0 to |attrs|
      invariant forall k | 0 <= k < i :: !Hides(lower, attrs[k])
    {
      var (name, value) := attrs[i];
      var lname := lower(name);
      if lname == "hidden" {
        return true;
      }
      if lname == "aria-hidden" && value.Some? && lower(value.value) == "true" {
        return true;
      }
      if lname == "style" && value.Some? && HidingStyle(value.value) {
        return true;
      }
    }
    return false;
  }

  /** The declaration spelled out: property, white space, a colon at `j`, white space, value at `k`. */
  ghost predicate DeclaredAs(d: Declaration, s: string, j: nat, k: nat) {
    && StartsFolded(s, d.property) && |d.property| <= j < k <= |s| && s[j] == ':'
    && (forall m | |d.property| <= m < j || j < m < k :: IsSpace(s[m]))
    && Follows(d, s[k..])
  }

  lemma ValueNotSpace(d: Declaration, s: string)
    requires d in HIDING && Follows(d, s)
    ensures s != "" && !IsSpace(s[0])
  {
    assert d.value == "none" || d.value == "hidden" || d.value == "0";
    assert EqualsFolded(s[0], d.value[0]);
  }

  lemma ColonNotSpace()
    ensures !IsSpace(':')
  {
  }

  lemma SplitDeclares(d: Declaration, s: string, j: nat, k: nat)
    requires d in HIDING && DeclaredAs(d, s, j, k)
    ensures Declares(d, s)
  {
    hide IsSpace, SkipSpaces, Follows, StartsFolded, HIDING;
    ColonNotSpace();
    ValueNotSpace(d, s[k..]);
    assert s[k..][0] == s[k];
  }

  lemma DeclaresSplit(d: Declaration, s: string)
    requires d in HIDING && Declares(d, s)
    ensures exists k: nat :: DeclaredAs(d, s, SkipSpaces(s, |d.property|), k)
  {
    hide IsSpace, SkipSpaces, StartsFolded, Follows, HIDING;
    var j := SkipSpaces(s, |d.property|);
    var k := SkipSpaces(s, j + 1);
    ValueNotSpace(d, s[k..]);
    assert DeclaredAs(d, s, j, k);
  }

  /** Skipping white space greedily finds exactly the declarations there are. */
  lemma DeclaresIff(d: Declaration, s: string)
    requires d in HIDING
    ensures Declares(d, s) <==> exists j: nat, k: nat :: DeclaredAs(d, s, j, k)
  {
    hide Declares, DeclaredAs, HIDING;
    if Declares(d, s) {
      DeclaresSplit(d, s);
    }
    if j: nat, k: nat :| DeclaredAs(d, s, j, k) {
      SplitDeclares(d, s, j, k);
    }
  }

  /** A style hides iff somewhere in it stands a declaration of the four, letters in any case and any
      white space around the colon. */
  lemma HidingStyleIff(style: string)
    ensures HidingStyle(style)
            <==> exists i: nat, d, j: nat, k: nat :: i <= |style| && d in HIDING && DeclaredAs(d, style[i..], j, k)
  {
    hide HIDING, Declares, DeclaredAs;
    if i, d :| 0 <= i <= |style| && d in HIDING && Declares(d, style[i..]) {
      DeclaresIff(d, style[i..]);
      var j: nat, k: nat :| DeclaredAs(d, style[i..], j, k);
      assert i <= |style| && d in HIDING && DeclaredAs(d, style[i..], j, k);
    }
    if i: nat, d, j: nat, k: nat :| i <= |style| && d in HIDING && DeclaredAs(d, style[i..], j, k) {
      DeclaresIff(d, style[i..]);
    }
  }

  /** A call of the parser's handlers. */
  datatype Call =
    | HandlesStartTag(tag: string, attrs: seq<Attribute>)
    | HandlesEndTag(tag: string)
    | HandlesData(data: string)
    | HandlesComment(data: string)

  /** What matters of a call: the lower-cased tag, and whether the attributes hide the element. */
  datatype Event =
    | StartTag(tag: string, hidden: bool)
    | EndTag(tag: string)
    | Data(data: string)
    | Comment(data: string)

  function EventOf(lower: string -> string, c: Call): Event {
    match c
    case HandlesStartTag(tag, attrs) => StartTag(lower(tag), IsHidden(lower, attrs))
    case HandlesEndTag(tag) => EndTag(lower(tag))
    case HandlesData(data) => Data(data)
    case HandlesComment(data) => Comment(data)
  }

  function EventsOf(lower: string -> string, cs: seq<Call>): seq<Event> {
    seq(|cs|, i requires 0 <= i < |cs| => EventOf(lower, cs[i]))
  }

  predicate Suppressed(tag: string, hidden: bool) {
    tag in DROP_CONTENT_TAGS || hidden
  }

  // ---------- specification ----------

  datatype State = State(parts: seq<string>, stack: seq<string>)

  function BreakLine(tag: string, parts: seq<string>): seq<string> {
    if tag in BLOCK_TAGS && parts != [] && parts[|parts| - 1] != NEWLINE then parts + [NEWLINE] else parts
  }

  function Step(st: State, e: Event): State {
    match e
    case StartTag(tag, hidden) =>
      if Suppressed(tag, hidden) then st.(stack := st.stack + [tag])
      else if st.stack != [] then st
      else st.(parts := BreakLine(tag, st.parts))
    case EndTag(tag) =>
      if st.stack != [] && st.stack[|st.stack| - 1] == tag then st.(stack := st.stack[..|st.stack| - 1])
      else st.(parts := BreakLine(tag, st.parts))
    case Data(data) =>
      if st.stack != [] || Strip(data) == "" then st else st.(parts := st.parts + [Strip(data)])
    case Comment(_) => st
  }

  function Run(st: State, es: seq<Event>): State {
    if es == [] then st else Step(Run(st, es[..|es| - 1]), es[|es| - 1])
  }

  // ---------- the code ----------

  class Extractor {
    const lower: string -> string
    var parts: seq<string>
    var suppressDepth: nat
    var suppressStack: seq<string>

    /** The depth counter and the stack never disagree. */
    ghost predicate Valid()
      reads this
    {
      suppressDepth == |suppressStack|
    }

    ghost function Value(): State
      reads this
    {
      State(parts, suppressStack)
    }

    constructor (lower: string -> string)
      ensures Valid() && this.lower == lower && Value() == State([], [])
    {
      this.lower, parts, suppressDepth, suppressStack := lower, [], 0, [];
    }

    method HandleStartTag(tag: string, attrs: seq<Attribute>)
      requires Valid()
      modifies this
      ensures Valid() && Value() == Step(old(Value()), EventOf(lower, HandlesStartTag(tag, attrs)))
    {
      hide IsHidden;
      var name := lower(tag);
      var hidden := CheckHidden(lower, attrs);
      if suppressDepth != 0 {
        if name in DROP_CONTENT_TAGS || hidden {
          suppressStack := suppressStack + [name];
          suppressDepth := suppressDepth + 1;
        }
        return;
      }
      if name in DROP_CONTENT_TAGS || hidden {
        suppressStack := suppressStack + [name];
        suppressDepth := suppressDepth + 1;
        return;
      }
      if name in BLOCK_TAGS && parts != [] && parts[|parts| - 1] != NEWLINE {
        parts := parts + [NEWLINE];
      }
    }

    method HandleEndTag(tag: string)
      requires Valid()
      modifies this
      ensures Valid() && Value() == Step(old(Value()), EventOf(lower, HandlesEndTag(tag)))
    {
      var name := lower(tag);
      if suppressDepth != 0 && suppressStack != [] && suppressStack[|suppressStack| - 1] == name {
        suppressStack := suppressStack[..|suppressStack| - 1];
        suppressDepth := suppressDepth - 1;
        return;
      }
      if name in BLOCK_TAGS && parts != [] && parts[|parts| - 1] != NEWLINE {
        parts := parts + [NEWLINE];
      }
    }

    method HandleData(data: string)
      requires Valid()
      modifies this
      ensures Valid() && Value() == Step(old(Value()), Data(data))
    {
      if suppressDepth != 0 {
        return;
      }
      var text := Strip(data);
      if text != "" {
        parts := parts + [text];
      }
    }

    /** What `feed` and `close` do with the calls the parser makes. */
    method Feed(cs: seq<Call>)
      requires Valid()
      modifies this
      ensures Valid() && Value() == Run(old(Value()), EventsOf(lower, cs))
    {
      hide Step, IsHidden;
      ghost var es := EventsOf(lower, cs);
      for i := 0 to |cs|
        invariant Valid() && Value() == Run(old(Value()), es[..i])
      {
        assert es[..i + 1][..i] == es[..i];
        match cs[i] {
          case HandlesStartTag(tag, attrs) => HandleStartTag(tag, attrs);
          case HandlesEndTag(tag) => HandleEndTag(tag);
          case HandlesData(data) => HandleData(data);
          case HandlesComment(data) => CommentStep(Value(), data);
        }
      }
      assert es[..|es|] == es;
    }
  }

  lemma CommentStep(st: State, data: string)
    ensures Step(st, Comment(data)) == st
  {
  }

  // ---------- any event stream ----------

  ghost predicate TidyParts(parts: seq<string>) {
    && (parts != [] ==> parts[0] != NEWLINE)
    && (forall k | 0 < k < |parts| :: parts[k] != NEWLINE || parts[k - 1] != NEWLINE)
    && (forall k | 0 <= k < |parts| && parts[k] != NEWLINE :: parts[k] != "" && Strip(parts[k]) == parts[k])
  }

  lemma StripIdempotent(s: string)
    ensures Strip(Strip(s)) == Strip(s)
  {
    var t := LStrip(s);
    assert RStrip(t) != "" ==> RStrip(t)[0] == t[0];
  }

  lemma BreakLineTidy(tag: string, parts: seq<string>)
    requires TidyParts(parts)
    ensures TidyParts(BreakLine(tag, parts))
  {
    hide Strip;
  }

  lemma NewlineStrips()
    ensures Strip(NEWLINE) == ""
  {
    assert LStrip(NEWLINE) == "";
  }

  lemma DataTidy(parts: seq<string>, data: string)
    requires TidyParts(parts) && Strip(data) != ""
    ensures TidyParts(parts + [Strip(data)])
  {
    StripIdempotent(data);
    NewlineStrips();
    hide Strip;
  }

  /** Whatever the events, the parts never start with a line break or repeat one, and every other
      part is a stripped, non-empty text. */
  lemma {:induction false} PartsStayTidy(st: State, es: seq<Event>)
    requires TidyParts(st.parts)
    ensures TidyParts(Run(st, es).parts)
  {
    hide TidyParts, BreakLine, Strip, Suppressed;
    if es != [] {
      var e := es[|es| - 1];
      var before := Run(st, es[..|es| - 1]);
      PartsStayTidy(st, es[..|es| - 1]);
      match e {
        case StartTag(tag, _) => BreakLineTidy(tag, before.parts);
        case EndTag(tag) => BreakLineTidy(tag, before.parts);
        case Data(data) =>
          if Strip(data) != "" {
            DataTidy(before.parts, data);
          }
        case Comment(_) =>
      }
    }
  }

  lemma {:induction false} RunConcat(st: State, es: seq<Event>, fs: seq<Event>)
    ensures Run(st, es + fs) == Run(Run(st, es), fs)
  {
    if fs == [] {
      assert es + fs == es;
    } else {
      RunConcat(st, es, fs[..|fs| - 1]);
      assert (es + fs)[..|es + fs| - 1] == es + fs[..|fs| - 1];
    }
  }

  // ---------- element forests ----------

  /** A well-nested document, read left to right: each constructor holds what follows it. An element
      with `closed` false has a start tag but no end tag. */
  datatype Forest =
    | Empty
    | Text(data: string, rest: Forest)
    | Note(data: string, rest: Forest)
    | Element(tag: string, hidden: bool, closed: bool, kids: Forest, rest: Forest)
  {
    predicate Drops() requires Element? { Suppressed(tag, hidden) }
  }

  /** An element without what follows it. */
  function Alone(f: Forest): Forest
    requires f.Element?
  {
    Element(f.tag, f.hidden, f.closed, f.kids, Empty)
  }

  function Closing(f: Forest): seq<Event>
    requires f.Element?
  {
    if f.closed then [EndTag(f.tag)] else []
  }

  function Events(f: Forest): seq<Event> {
    match f
    case Empty => []
    case Text(data, rest) => [Data(data)] + Events(rest)
    case Note(data, rest) => [Comment(data)] + Events(rest)
    case Element(tag, hidden, _, kids, rest) =>
      [StartTag(tag, hidden)] + Events(kids) + Closing(f) + Events(rest)
  }

  /** The stripped, non-empty texts that have no suppressed ancestor, in document order. */
  function Visible(f: Forest): seq<string> {
    match f
    case Empty => []
    case Text(data, rest) => (if Strip(data) != "" then [Strip(data)] else []) + Visible(rest)
    case Note(_, rest) => Visible(rest)
    case Element(_, _, _, kids, rest) => (if f.Drops() then [] else Visible(kids)) + Visible(rest)
  }

  function Texts(parts: seq<string>): seq<string> {
    if parts == [] then []
    else
      var last := parts[|parts| - 1];
      Texts(parts[..|parts| - 1]) + if last == NEWLINE then [] else [last]
  }

  function Top(stack: seq<string>): Option<string> {
    if stack == [] then None else Some(stack[|stack| - 1])
  }

  /** Suppressed elements have end tags, and no closed element in the plain text of a suppressed one
      has that one's tag. */
  predicate Guarded(f: Forest, top: Option<string>) {
    match f
    case Empty => true
    case Text(_, rest) => Guarded(rest, top)
    case Note(_, rest) => Guarded(rest, top)
    case Element(tag, _, closed, kids, rest) =>
      && Guarded(rest, top)
      && if f.Drops() then closed && Guarded(kids, Some(tag))
         else Guarded(kids, top) && !(closed && top == Some(tag))
  }

  lemma RunElement(st: State, f: Forest)
    requires f.Element?
    ensures var inside := Run(Step(st, StartTag(f.tag, f.hidden)), Events(f.kids));
            Run(st, Events(f)) == Run(if f.closed then Step(inside, EndTag(f.tag)) else inside, Events(f.rest))
  {
    var start, kids, close := [StartTag(f.tag, f.hidden)], Events(f.kids), Closing(f);
    RunConcat(st, start + kids + close, Events(f.rest));
    RunConcat(st, start + kids, close);
    RunConcat(st, start, kids);
    var inside := Run(Step(st, StartTag(f.tag, f.hidden)), kids);
    assert Run(inside, []) == inside;
  }

  lemma RunCons(st: State, e: Event, es: seq<Event>)
    ensures Run(st, [e] + es) == Run(Step(st, e), es)
  {
    RunConcat(st, [e], es);
  }

  lemma RunText(st: State, data: string, rest: Forest)
    ensures Run(st, Events(Text(data, rest))) == Run(Step(st, Data(data)), Events(rest))
    ensures Run(st, Events(Note(data, rest))) == Run(st, Events(rest))
  {
    RunCons(st, Data(data), Events(rest));
    RunCons(st, Comment(data), Events(rest));
  }

  lemma RunEmpty(st: State)
    ensures Run(st, Events(Empty)) == st
  {
  }

  lemma BreakLineTexts(tag: string, parts: seq<string>)
    ensures Texts(BreakLine(tag, parts)) == Texts(parts)
  {
    assert (parts + [NEWLINE])[..|parts|] == parts;
  }

  lemma DataTexts(parts: seq<string>, data: string)
    requires Strip(data) != ""
    ensures Texts(parts + [Strip(data)]) == Texts(parts) + [Strip(data)]
  {
    StripIdempotent(data);
    NewlineStrips();
    hide Strip;
    assert (parts + [Strip(data)])[..|parts|] == parts;
  }

  lemma TextsStep(st: State, e: Event)
    ensures Texts(Step(st, e).parts)
            == Texts(st.parts) + if e.Data? && st.stack == [] && Strip(e.data) != "" then [Strip(e.data)] else []
  {
    hide Texts, BreakLine, Strip, Suppressed;
    match e {
      case StartTag(tag, _) => BreakLineTexts(tag, st.parts);
      case EndTag(tag) => BreakLineTexts(tag, st.parts);
      case Data(data) =>
        if Strip(data) != "" {
          DataTexts(st.parts, data);
        }
      case Comment(_) =>
    }
  }

  lemma StackStep(st: State, e: Event)
    ensures var stack := Step(st, e).stack;
            match e
            case StartTag(tag, hidden) => stack == if Suppressed(tag, hidden) then st.stack + [tag] else st.stack
            case EndTag(tag) => stack == if Top(st.stack) == Some(tag) then st.stack[..|st.stack| - 1] else st.stack
            case _ => stack == st.stack
  {
    hide BreakLine, Strip, Suppressed;
  }

  // ---------- the stack alone ----------

  function StackAfter(stack: seq<string>, es: seq<Event>): seq<string> { Run(State([], stack), es).stack }

  lemma {:induction false} StackOnly(st: State, parts: seq<string>, es: seq<Event>)
    ensures Run(st, es).stack == Run(State(parts, st.stack), es).stack
  {
    if es != [] {
      StackOnly(st, parts, es[..|es| - 1]);
    }
  }

  lemma RunsLikeItsStack(st: State, es: seq<Event>)
    ensures Run(st, es).stack == StackAfter(st.stack, es)
  {
    hide Run;
    StackOnly(st, [], es);
  }

  lemma AfterConcat(stack: seq<string>, es: seq<Event>, fs: seq<Event>)
    ensures StackAfter(stack, es + fs) == StackAfter(StackAfter(stack, es), fs)
  {
    hide Run;
    RunConcat(State([], stack), es, fs);
    StackOnly(Run(State([], stack), es), [], fs);
  }

  lemma AfterOne(stack: seq<string>, e: Event)
    ensures StackAfter(stack, []) == stack
    ensures StackAfter(stack, [e])
            == match e
               case StartTag(tag, hidden) => if Suppressed(tag, hidden) then stack + [tag] else stack
               case EndTag(tag) => if Top(stack) == Some(tag) then stack[..|stack| - 1] else stack
               case _ => stack
  {
    assert Run(State([], stack), []) == State([], stack);
    hide Step, Run, Suppressed;
    StackStep(State([], stack), e);
  }

  lemma AfterClosing(stack: seq<string>, f: Forest)
    requires f.Element?
    ensures StackAfter(stack, Closing(f))
            == if f.closed && Top(stack) == Some(f.tag) then stack[..|stack| - 1] else stack
  {
    AfterOne(stack, EndTag(f.tag));
  }

  /** An element's events, from the stack before it to the stack behind it. */
  lemma AfterElement(stack: seq<string>, f: Forest)
    requires f.Element?
    ensures var s1 := StackAfter(stack, [StartTag(f.tag, f.hidden)]);
            var s2 := StackAfter(s1, Events(f.kids));
            var s3 := StackAfter(s2, Closing(f));
            && StackAfter(stack, Events(Alone(f))) == s3
            && StackAfter(stack, Events(f)) == StackAfter(s3, Events(f.rest))
  {
    var start, kids, close, rest := [StartTag(f.tag, f.hidden)], Events(f.kids), Closing(f), Events(f.rest);
    assert Events(Alone(f)) == start + kids + close && Events(f) == start + kids + close + rest;
    hide StackAfter, Events, Closing;
    AfterConcat(stack, start, kids);
    AfterConcat(stack, start + kids, close);
    AfterConcat(stack, start + kids + close, rest);
  }

  /** Every element, when its turn comes, finds and leaves the stack as its ancestors made it: a
      suppressed element's end tag pops the entry its own start tag pushed, no other does. */
  ghost predicate Faithful(f: Forest, stack: seq<string>) {
    match f
    case Empty => true
    case Text(_, rest) => Faithful(rest, stack)
    case Note(_, rest) => Faithful(rest, stack)
    case Element(tag, hidden, closed, kids, rest) =>
      && Faithful(kids, if f.Drops() then stack + [tag] else stack)
      && StackAfter(stack, Events(Alone(f))) == stack
      && Faithful(rest, stack)
  }

  lemma {:induction false} FaithfulKeepsStack(f: Forest, stack: seq<string>)
    requires Faithful(f, stack)
    ensures StackAfter(stack, Events(f)) == stack
    decreases f
  {
    hide StackAfter, Suppressed;
    match f {
      case Empty => AfterOne(stack, Comment(""));
      case Text(data, rest) =>
        AfterConcat(stack, [Data(data)], Events(rest));
        AfterOne(stack, Data(data));
        FaithfulKeepsStack(rest, stack);
      case Note(data, rest) =>
        AfterConcat(stack, [Comment(data)], Events(rest));
        AfterOne(stack, Comment(data));
        FaithfulKeepsStack(rest, stack);
      case Element(_, _, _, _, rest) =>
        AfterElement(stack, f);
        FaithfulKeepsStack(rest, stack);
    }
  }

  /** The guard is exact: end tags match up as the document means them iff the forest is guarded. */
  lemma {:induction false} FaithfulIffGuarded(f: Forest, stack: seq<string>)
    ensures Faithful(f, stack) <==> Guarded(f, Top(stack))
    decreases f
  {
    hide StackAfter, Suppressed, Events, Closing;
    match f {
      case Empty =>
      case Text(_, rest) => FaithfulIffGuarded(rest, stack);
      case Note(_, rest) => FaithfulIffGuarded(rest, stack);
      case Element(tag, hidden, closed, kids, rest) =>
        var inner := if f.Drops() then stack + [tag] else stack;
        FaithfulIffGuarded(kids, inner);
        FaithfulIffGuarded(rest, stack);
        if Faithful(kids, inner) {
          FaithfulKeepsStack(kids, inner);
          AfterElement(stack, f);
          AfterOne(stack, StartTag(tag, hidden));
          AfterClosing(inner, f);
        }
    }
  }

  /** What the guard excludes: inside a hidden element, the end tag of a plain one with the same tag
      takes its place, and hidden text comes out. */
  lemma UnguardedLeaks(tag: string, data: string)
    requires !Suppressed(tag, false) && Strip(data) != ""
    ensures var f := Element(tag, true, true, Element(tag, false, true, Empty, Text(data, Empty)), Empty);
            && !Guarded(f, None) && Visible(f) == []
            && Texts(Run(State([], []), Events(f)).parts) == [Strip(data)]
  {
    var inner := Element(tag, false, true, Empty, Text(data, Empty));
    var f := Element(tag, true, true, inner, Empty);
    assert Suppressed(tag, true);
    hide Step, Texts, Strip, Suppressed, Run, Events;
    var s0 := State([], []);
    var s1 := Step(s0, StartTag(tag, true));
    var s2 := Step(s1, StartTag(tag, false));
    var s3 := Step(s2, EndTag(tag));
    var s4 := Step(s3, Data(data));
    RunElement(s0, f);
    RunElement(s1, inner);
    RunEmpty(s2);
    RunText(s3, data, Empty);
    RunEmpty(s4);
    RunEmpty(Step(s4, EndTag(tag)));
    StackStep(s0, StartTag(tag, true));
    StackStep(s1, StartTag(tag, false));
    StackStep(s2, EndTag(tag));
    LeakTexts(s0, s1, s2, s3, s4, tag, data);
  }

  lemma LeakTexts(s0: State, s1: State, s2: State, s3: State, s4: State, tag: string, data: string)
    requires s0.parts == [] && s3.stack == [] && Strip(data) != ""
    requires s1 == Step(s0, StartTag(tag, true)) && s2 == Step(s1, StartTag(tag, false))
    requires s3 == Step(s2, EndTag(tag)) && s4 == Step(s3, Data(data))
    ensures Texts(Step(s4, EndTag(tag)).parts) == [Strip(data)]
  {
    hide Step, Texts, Strip;
    NoTexts();
    TextsStep(s0, StartTag(tag, true));
    TextsStep(s1, StartTag(tag, false));
    TextsStep(s2, EndTag(tag));
    TextsStep(s3, Data(data));
    TextsStep(s4, EndTag(tag));
  }

  lemma NoTexts()
    ensures Texts([]) == []
  {
  }

  // ---------- where texts come out right ----------

  /** A text put where the stack is `stack` is collected iff it is not hidden. */
  ghost predicate Shows(stack: seq<string>, hidden: bool) {
    forall d :: Texts(Step(State([], stack), Data(d)).parts) == if hidden || Strip(d) == "" then [] else [Strip(d)]
  }

  /** So it is at every place of the document: before, between and behind its nodes, and in its elements. */
  ghost predicate ShowsEverywhere(f: Forest, stack: seq<string>, hidden: bool) {
    && Shows(stack, hidden)
    && match f
       case Empty => true
       case Text(_, rest) => ShowsEverywhere(rest, stack, hidden)
       case Note(_, rest) => ShowsEverywhere(rest, stack, hidden)
       case Element(tag, h, _, kids, rest) =>
         && ShowsEverywhere(kids, StackAfter(stack, [StartTag(tag, h)]), hidden || f.Drops())
         && ShowsEverywhere(rest, StackAfter(stack, Events(Alone(f))), hidden)
  }

  ghost predicate NeverEmpty(stack: seq<string>, es: seq<Event>) {
    forall n | 0 <= n <= |es| :: StackAfter(stack, es[..n]) != []
  }

  /** Every outermost hidden element is closed, its own entry stays on the stack until its end tag, and is
      the only one left there then. */
  ghost predicate Shielded(f: Forest) {
    match f
    case Empty => true
    case Text(_, rest) => Shielded(rest)
    case Note(_, rest) => Shielded(rest)
    case Element(tag, _, closed, kids, rest) =>
      && Shielded(rest)
      && if f.Drops() then
           closed && NeverEmpty([tag], Events(kids)) && |StackAfter([tag], Events(kids))| == 1
         else Shielded(kids)
  }

  lemma ShowsIff(stack: seq<string>, hidden: bool)
    ensures Shows(stack, hidden) <==> (stack == [] <==> !hidden)
  {
    hide Step, Texts, Strip;
    NoTexts();
    forall d
      ensures Texts(Step(State([], stack), Data(d)).parts) == if stack != [] || Strip(d) == "" then [] else [Strip(d)]
    {
      TextsStep(State([], stack), Data(d));
    }
    LetterIsText();
    if Shows(stack, hidden) {
      assert Texts(Step(State([], stack), Data("x")).parts) == if hidden then [] else [Strip("x")];
    }
  }

  lemma LetterIsText()
    ensures Strip("x") != ""
  {
    assert LStrip("x") == "x" && RStrip("x") == "x";
  }

  lemma NeverEmptyEnds(stack: seq<string>, es: seq<Event>)
    requires NeverEmpty(stack, es)
    ensures stack != [] && StackAfter(stack, es) != []
  {
    hide StackAfter;
    AfterOne(stack, Comment(""));
    assert es[..0] == [] && es[..|es|] == es;
  }

  lemma NeverEmptyOne(stack: seq<string>, e: Event)
    ensures NeverEmpty(stack, []) <==> stack != []
    ensures NeverEmpty(stack, [e]) <==> stack != [] && StackAfter(stack, [e]) != []
  {
    AfterOne(stack, e);
    hide StackAfter;
    var none: seq<Event>, es := [], [e];
    assert none[..0] == none && es[..0] == none && es[..1] == es;
    if NeverEmpty(stack, none) {
      assert StackAfter(stack, none[..0]) != [];
    }
    if NeverEmpty(stack, es) {
      assert StackAfter(stack, es[..0]) != [] && StackAfter(stack, es[..1]) != [];
    }
  }

  lemma NeverEmptyConcat(stack: seq<string>, es: seq<Event>, fs: seq<Event>)
    ensures NeverEmpty(stack, es + fs) <==> NeverEmpty(stack, es) && NeverEmpty(StackAfter(stack, es), fs)
  {
    hide StackAfter;
    var m := |es|;
    forall n | 0 <= n <= m ensures (es + fs)[..n] == es[..n] {
    }
    forall n | 0 <= n <= |fs|
      ensures StackAfter(stack, (es + fs)[..m + n]) == StackAfter(StackAfter(stack, es), fs[..n])
    {
      assert (es + fs)[..m + n] == es + fs[..n];
      AfterConcat(stack, es, fs[..n]);
    }
    if NeverEmpty(stack, es + fs) {
      forall n | 0 <= n <= m ensures StackAfter(stack, es[..n]) != [] {
        assert (es + fs)[..n] == es[..n];
      }
      forall n | 0 <= n <= |fs| ensures StackAfter(StackAfter(stack, es), fs[..n]) != [] {
        assert StackAfter(stack, (es + fs)[..m + n]) != [];
      }
    } else if NeverEmpty(stack, es) && NeverEmpty(StackAfter(stack, es), fs) {
      forall n | 0 <= n <= m + |fs| ensures StackAfter(stack, (es + fs)[..n]) != [] {
        if n > m {
          assert n == m + (n - m) && StackAfter(StackAfter(stack, es), fs[..n - m]) != [];
        }
      }
    }
  }

  lemma NeverEmptyElement(stack: seq<string>, f: Forest)
    requires f.Element?
    ensures var s1 := StackAfter(stack, [StartTag(f.tag, f.hidden)]);
            var s2 := StackAfter(s1, Events(f.kids));
            NeverEmpty(stack, Events(f))
            <==> NeverEmpty(stack, [StartTag(f.tag, f.hidden)]) && NeverEmpty(s1, Events(f.kids))
                 && NeverEmpty(s2, Closing(f)) && NeverEmpty(StackAfter(s2, Closing(f)), Events(f.rest))
  {
    var start, kids, close, rest := [StartTag(f.tag, f.hidden)], Events(f.kids), Closing(f), Events(f.rest);
    assert Events(f) == start + kids + close + rest;
    hide StackAfter, Events, NeverEmpty, Closing;
    AfterConcat(stack, start, kids);
    AfterConcat(stack, start + kids, close);
    NeverEmptyConcat(stack, start, kids);
    NeverEmptyConcat(stack, start + kids, close);
    NeverEmptyConcat(stack, start + kids + close, rest);
  }

  lemma AfterText(stack: seq<string>, e: Event, rest: seq<Event>)
    requires e.Data? || e.Comment?
    ensures StackAfter(stack, [e] + rest) == StackAfter(stack, rest)
    ensures NeverEmpty(stack, [e] + rest) <==> stack != [] && NeverEmpty(stack, rest)
  {
    AfterOne(stack, e);
    NeverEmptyOne(stack, e);
    hide StackAfter, NeverEmpty;
    AfterConcat(stack, [e], rest);
    NeverEmptyConcat(stack, [e], rest);
  }

  lemma NeverEmptyClosing(stack: seq<string>, f: Forest)
    requires f.Element?
    ensures NeverEmpty(stack, Closing(f)) <==> stack != [] && StackAfter(stack, Closing(f)) != []
  {
    AfterOne(stack, EndTag(f.tag));
    NeverEmptyOne(stack, EndTag(f.tag));
    hide StackAfter, NeverEmpty;
  }

  /** The last place of a document is the one behind it. */
  lemma {:induction false} ShowsBehind(f: Forest, stack: seq<string>, hidden: bool)
    requires ShowsEverywhere(f, stack, hidden)
    ensures Shows(StackAfter(stack, Events(f)), hidden)
    decreases f
  {
    hide Shows, StackAfter;
    AfterOne(stack, Comment(""));
    match f {
      case Empty =>
      case Text(data, rest) =>
        AfterText(stack, Data(data), Events(rest));
        ShowsBehind(rest, stack, hidden);
      case Note(data, rest) =>
        AfterText(stack, Comment(data), Events(rest));
        ShowsBehind(rest, stack, hidden);
      case Element(_, _, _, _, rest) =>
        AfterElement(stack, f);
        ShowsBehind(rest, StackAfter(stack, Events(Alone(f))), hidden);
    }
  }

  /** Under a hidden ancestor, all is well as long as the stack does not run empty. */
  lemma {:induction false} HiddenPlaces(f: Forest, stack: seq<string>)
    ensures ShowsEverywhere(f, stack, true) <==> NeverEmpty(stack, Events(f))
    decreases f
  {
    hide Shows, StackAfter, NeverEmpty, Suppressed, Closing;
    ShowsIff(stack, true);
    NeverEmptyOne(stack, Comment(""));
    match f {
      case Empty =>
      case Text(data, rest) =>
        AfterText(stack, Data(data), Events(rest));
        HiddenPlaces(rest, stack);
      case Note(data, rest) =>
        AfterText(stack, Comment(data), Events(rest));
        HiddenPlaces(rest, stack);
      case Element(tag, h, closed, kids, rest) => HiddenElement(f, stack);
    }
  }

  lemma HiddenElement(f: Forest, stack: seq<string>)
    requires f.Element?
    ensures ShowsEverywhere(f, stack, true) <==> NeverEmpty(stack, Events(f))
    decreases f, 0
  {
    hide Shows, StackAfter, NeverEmpty, Suppressed, Closing, Events;
    var start := StartTag(f.tag, f.hidden);
    var s1 := StackAfter(stack, [start]);
    var s2 := StackAfter(s1, Events(f.kids));
    var s3 := StackAfter(s2, Closing(f));
    ShowsIff(stack, true);
    AfterElement(stack, f);
    NeverEmptyElement(stack, f);
    AfterOne(stack, start);
    NeverEmptyOne(stack, start);
    AfterClosing(s2, f);
    NeverEmptyClosing(s2, f);
    HiddenPlaces(f.kids, s1);
    HiddenPlaces(f.rest, s3);
    if NeverEmpty(s1, Events(f.kids)) {
      NeverEmptyEnds(s1, Events(f.kids));
    }
    if NeverEmpty(s3, Events(f.rest)) {
      NeverEmptyEnds(s3, Events(f.rest));
    }
  }

  /** An entry that never leaves the stack stays at its bottom. */
  lemma {:induction false} BottomStays(stack: seq<string>, es: seq<Event>)
    requires NeverEmpty(stack, es)
    ensures stack != [] && StackAfter(stack, es) != [] && StackAfter(stack, es)[0] == stack[0]
  {
    hide StackAfter, Suppressed;
    NeverEmptyEnds(stack, es);
    AfterOne(stack, Comment(""));
    if es != [] {
      var n := |es| - 1;
      var before := es[..n];
      assert es == before + [es[n]];
      NeverEmptyConcat(stack, before, [es[n]]);
      BottomStays(stack, before);
      AfterConcat(stack, before, [es[n]]);
      AfterOne(StackAfter(stack, before), es[n]);
    }
  }

  /** The exact condition for texts: at every place of the document a text is collected iff it has no hidden
      ancestor, iff every outermost hidden element is shielded. */
  lemma {:induction false} TextsComeOutRightIff(f: Forest)
    ensures ShowsEverywhere(f, [], false) <==> Shielded(f)
    decreases f
  {
    hide Shows, StackAfter, NeverEmpty, Suppressed, Closing, Events;
    ShowsIff([], false);
    match f {
      case Empty =>
      case Text(_, rest) => TextsComeOutRightIff(rest);
      case Note(_, rest) => TextsComeOutRightIff(rest);
      case Element(_, _, _, kids, rest) =>
        TextsComeOutRightIff(rest);
        if f.Drops() {
          OutermostHidden(f);
        } else {
          TextsComeOutRightIff(kids);
          PlainElement(f);
        }
    }
  }

  lemma OutermostHidden(f: Forest)
    requires f.Element? && f.Drops() && (ShowsEverywhere(f.rest, [], false) <==> Shielded(f.rest))
    ensures ShowsEverywhere(f, [], false) <==> Shielded(f)
  {
    hide Shows, StackAfter, NeverEmpty, Suppressed, Closing, Events;
    var s2 := StackAfter([f.tag], Events(f.kids));
    ShowsIff([], false);
    AfterElement([], f);
    AfterOne([], StartTag(f.tag, f.hidden));
    assert [] + [f.tag] == [f.tag];
    AfterClosing(s2, f);
    HiddenPlaces(f.kids, [f.tag]);
    ShowsIff(StackAfter(s2, Closing(f)), false);
    if NeverEmpty([f.tag], Events(f.kids)) {
      BottomStays([f.tag], Events(f.kids));
    }
  }

  lemma PlainElement(f: Forest)
    requires f.Element? && !f.Drops()
    requires ShowsEverywhere(f.rest, [], false) <==> Shielded(f.rest)
    requires ShowsEverywhere(f.kids, [], false) <==> Shielded(f.kids)
    ensures ShowsEverywhere(f, [], false) <==> Shielded(f)
  {
    hide Shows, StackAfter, NeverEmpty, Suppressed, Closing, Events;
    ShowsIff([], false);
    AfterElement([], f);
    AfterOne([], StartTag(f.tag, f.hidden));
    AfterClosing(StackAfter([], Events(f.kids)), f);
    ShowsIff(StackAfter([], Events(f.kids)), false);
    if ShowsEverywhere(f.kids, [], false) {
      ShowsBehind(f.kids, [], false);
    }
  }

  /** A document in which texts come out right at every place has its own texts collected exactly. */
  lemma {:induction false} ShowsRun(f: Forest, st: State, hidden: bool)
    requires ShowsEverywhere(f, st.stack, hidden)
    ensures Texts(Run(st, Events(f)).parts) == Texts(st.parts) + if hidden then [] else Visible(f)
    decreases f
  {
    hide Step, Texts, Strip, Suppressed, Run, Events, Shows, StackAfter;
    if f.Element? {
      ShowsRunElement(f, st, hidden);
    } else {
      ShowsIff(st.stack, hidden);
      match f {
        case Empty => RunEmpty(st);
        case Text(data, rest) =>
          RunText(st, data, rest);
          TextsStep(st, Data(data));
          StackStep(st, Data(data));
          ShowsRun(rest, Step(st, Data(data)), hidden);
          var k := if hidden || Strip(data) == "" then [] else [Strip(data)];
          Regroup(Texts(st.parts), k, if hidden then [] else Visible(rest));
        case Note(data, rest) =>
          RunText(st, data, rest);
          ShowsRun(rest, st, hidden);
      }
    }
  }

  lemma ShowsParts(f: Forest, stack: seq<string>, hidden: bool)
    requires f.Element? && ShowsEverywhere(f, stack, hidden)
    ensures ShowsEverywhere(f.kids, StackAfter(stack, [StartTag(f.tag, f.hidden)]), hidden || f.Drops())
    ensures ShowsEverywhere(f.rest, StackAfter(stack, Events(Alone(f))), hidden)
  {
    hide StackAfter, Shows, Events, Suppressed;
  }

  /** Where an element's run goes: into its content, and on behind it. */
  lemma ElementRun(f: Forest, st: State) returns (s1: State, s3: State)
    requires f.Element?
    ensures s1.stack == StackAfter(st.stack, [StartTag(f.tag, f.hidden)]) && Texts(s1.parts) == Texts(st.parts)
    ensures s3.stack == StackAfter(st.stack, Events(Alone(f)))
    ensures Texts(s3.parts) == Texts(Run(s1, Events(f.kids)).parts)
    ensures Run(st, Events(f)) == Run(s3, Events(f.rest))
  {
    hide Step, Texts, Strip, Suppressed, Run, Events, StackAfter;
    var start := StartTag(f.tag, f.hidden);
    s1 := Step(st, start);
    TextsStep(st, start);
    StackStep(st, start);
    AfterOne(st.stack, start);
    var s2 := Run(s1, Events(f.kids));
    TextsStep(s2, EndTag(f.tag));
    s3 := if f.closed then Step(s2, EndTag(f.tag)) else s2;
    RunElement(st, f);
    RunElement(st, Alone(f));
    RunEmpty(s3);
    RunsLikeItsStack(st, Events(Alone(f)));
  }

  lemma ShowsRunElement(f: Forest, st: State, hidden: bool)
    requires f.Element? && ShowsEverywhere(f, st.stack, hidden)
    ensures Texts(Run(st, Events(f)).parts) == Texts(st.parts) + if hidden then [] else Visible(f)
    decreases f, 0
  {
    hide Texts, Suppressed, Run, Events, ShowsEverywhere, StackAfter, Visible, Alone;
    ShowsParts(f, st.stack, hidden);
    VisibleElement(f);
    var s1, s3 := ElementRun(f, st);
    ShowsRun(f.kids, s1, hidden || f.Drops());
    ShowsRun(f.rest, s3, hidden);
    var k := if hidden || f.Drops() then [] else Visible(f.kids);
    var r := if hidden then [] else Visible(f.rest);
    Regroup(Texts(st.parts), k, r);
  }

  lemma VisibleElement(f: Forest)
    requires f.Element?
    ensures Visible(f) == (if f.Drops() then [] else Visible(f.kids)) + Visible(f.rest)
  {
  }

  lemma Regroup(t: seq<string>, k: seq<string>, r: seq<string>)
    ensures (t + k) + r == t + (k + r) && (k == [] && r == [] ==> (t + k) + r == t + [])
  {
  }

  /** The guard suffices. */
  lemma {:induction false} GuardedShows(f: Forest, stack: seq<string>, hidden: bool)
    requires Guarded(f, Top(stack)) && (stack == [] <==> !hidden)
    ensures ShowsEverywhere(f, stack, hidden)
    decreases f
  {
    hide Shows, StackAfter, Suppressed, Events, Run;
    ShowsIff(stack, hidden);
    match f {
      case Empty =>
      case Text(_, rest) => GuardedShows(rest, stack, hidden);
      case Note(_, rest) => GuardedShows(rest, stack, hidden);
      case Element(tag, h, _, kids, rest) =>
        AfterOne(stack, StartTag(tag, h));
        GuardedShows(kids, StackAfter(stack, [StartTag(tag, h)]), hidden || f.Drops());
        FaithfulIffGuarded(f, stack);
        GuardedShows(rest, stack, hidden);
    }
  }

  /** Running a guarded forest leaves the stack as it was, and collects its visible texts when
      nothing is suppressed, none otherwise. */
  lemma GuardedRun(st: State, f: Forest)
    requires Guarded(f, Top(st.stack))
    ensures var end := Run(st, Events(f));
            && end.stack == st.stack
            && Texts(end.parts) == Texts(st.parts) + if st.stack == [] then Visible(f) else []
  {
    hide Run, Events, Texts, Visible, StackAfter, ShowsEverywhere, Faithful, Guarded;
    FaithfulIffGuarded(f, st.stack);
    FaithfulKeepsStack(f, st.stack);
    RunsLikeItsStack(st, Events(f));
    GuardedShows(f, st.stack, st.stack != []);
    ShowsRun(f, st, st.stack != []);
  }

  lemma GuardedIsShielded(f: Forest)
    requires Guarded(f, None)
    ensures Shielded(f)
  {
    hide Guarded, ShowsEverywhere, Shielded;
    GuardedShows(f, [], false);
    TextsComeOutRightIff(f);
  }

  // ---------- right without the guard ----------

  /** A hidden element in a hidden one, with a closed plain element that has the inner one's tag, and
      texts everywhere. */
  function Doubly(outer: string, inner: string, ds: seq<string>): Forest
    requires |ds| == 6
  {
    Element(outer, true, true, Text(ds[0], DoublyInner(inner, ds)), Text(ds[5], Empty))
  }

  function DoublyInner(inner: string, ds: seq<string>): Forest
    requires |ds| == 6
  {
    var plain := Element(inner, false, true, Text(ds[2], Empty), Text(ds[3], Empty));
    Element(inner, true, true, Text(ds[1], plain), Text(ds[4], Empty))
  }

  lemma OneText(data: string, stack: seq<string>)
    ensures StackAfter(stack, Events(Text(data, Empty))) == stack
    ensures stack != [] ==> ShowsEverywhere(Text(data, Empty), stack, true)
    ensures stack == [] ==> ShowsEverywhere(Text(data, Empty), stack, false)
  {
    AfterOne(stack, Data(data));
    AfterText(stack, Data(data), Events(Empty));
    hide StackAfter, Shows;
    ShowsIff(stack, stack != []);
  }

  /** A text and an element behind it, the element's own text behind that. */
  lemma TextAndElement(f: Forest, stack: seq<string>, inside: seq<string>, behind: seq<string>, data: string,
                       last: string)
    requires f.Element? && f.closed && f.rest == Text(last, Empty) && stack != [] && inside != [] && behind != []
    requires inside == (if f.Drops() then stack + [f.tag] else stack) && ShowsEverywhere(f.kids, inside, true)
    requires var s := StackAfter(inside, Events(f.kids));
             behind == if Top(s) == Some(f.tag) then s[..|s| - 1] else s
    ensures ShowsEverywhere(f, stack, true) && StackAfter(stack, Events(f)) == behind
    ensures ShowsEverywhere(Text(data, f), stack, true) && StackAfter(stack, Events(Text(data, f))) == behind
  {
    AfterOne(stack, StartTag(f.tag, f.hidden));
    AfterClosing(StackAfter(inside, Events(f.kids)), f);
    AfterElement(stack, f);
    OneText(last, behind);
    AfterText(stack, Data(data), Events(f));
    hide StackAfter, Shows, Suppressed, Closing;
    ShowsIff(stack, true);
  }

  lemma DoublyShows(outer: string, inner: string, ds: seq<string>)
    requires |ds| == 6 && outer != inner && !Suppressed(inner, false)
    ensures ShowsEverywhere(Doubly(outer, inner, ds), [], false)
    ensures StackAfter([], Events(Doubly(outer, inner, ds))) == []
  {
    hide StackAfter, Shows, ShowsEverywhere, Events, Closing;
    var plain := Element(inner, false, true, Text(ds[2], Empty), Text(ds[3], Empty));
    var hidden := DoublyInner(inner, ds);
    var f := Doubly(outer, inner, ds);
    OneText(ds[2], [outer, inner]);
    TextAndElement(plain, [outer, inner], [outer, inner], [outer], ds[1], ds[3]);
    TextAndElement(hidden, [outer], [outer, inner], [outer], ds[0], ds[4]);
    AfterOne([], StartTag(outer, true));
    AfterClosing([outer], f);
    AfterElement([], f);
    OneText(ds[5], []);
    ShowsIff([], false);
    assert [] + [outer] == [outer];
    ShowsOutermost(f);
  }

  lemma ShowsOutermost(f: Forest)
    requires f.Element? && f.Drops() && Shows([], false)
    requires ShowsEverywhere(f.kids, StackAfter([], [StartTag(f.tag, f.hidden)]), true)
    requires ShowsEverywhere(f.rest, StackAfter([], Events(Alone(f))), false)
    ensures ShowsEverywhere(f, [], false)
  {
    hide StackAfter, Shows;
  }

  lemma DoublyUnguarded(outer: string, inner: string, ds: seq<string>)
    requires |ds| == 6 && !Suppressed(inner, false)
    ensures !Guarded(Doubly(outer, inner, ds), None)
  {
    var plain := Element(inner, false, true, Text(ds[2], Empty), Text(ds[3], Empty));
    assert Suppressed(inner, true) && Suppressed(outer, true);
    hide Suppressed;
    assert !Guarded(plain, Some(inner)) && !Guarded(Text(ds[1], plain), Some(inner));
    assert !Guarded(DoublyInner(inner, ds), Some(outer));
  }

  /** The guard is exact for the pairing of tags, but the texts alone can come out right without it: under
      two hidden elements, the pop that comes too early is made up for by the end tag that finds the wrong
      entry, and at no place does the stack run empty. */
  lemma UnguardedYetExact(outer: string, inner: string, ds: seq<string>)
    requires |ds| == 6 && outer != inner && !Suppressed(inner, false)
    ensures var f := Doubly(outer, inner, ds);
            && !Guarded(f, None) && !Faithful(f, []) && Shielded(f)
            && Run(State([], []), Events(f)).stack == []
            && Texts(Run(State([], []), Events(f)).parts) == Visible(f)
  {
    hide Texts, Run, Events, Faithful, Visible, Guarded, StackAfter, ShowsEverywhere, Shielded, Doubly;
    var f := Doubly(outer, inner, ds);
    DoublyUnguarded(outer, inner, ds);
    FaithfulIffGuarded(f, []);
    DoublyShows(outer, inner, ds);
    TextsComeOutRightIff(f);
    RunsLikeItsStack(State([], []), Events(f));
    NoTexts();
    ShowsRun(f, State([], []), false);
    assert [] + Visible(f) == Visible(f);
  }

  // ---------- rendering ----------

  function JoinWith(sep: string, ps: seq<string>): string {
    if ps == [] then "" else if |ps| == 1 then ps[0] else ps[0] + sep + JoinWith(sep, ps[1..])
  }

  function SplitLines(s: string): (ls: seq<string>)
    ensures ls != []
  {
    if s == "" then [""]
    else
      var ls := SplitLines(s[1..]);
      if s[0] == '\n' then [""] + ls else [[s[0]] + ls[0]] + ls[1..]
  }

  predicate IsBlank(c: char) { c == ' ' || c == '\t' }

  /** `re.sub(r"[ \t]+", " ", s)` */
  function CollapseBlanks(s: string): string {
    if s == "" then ""
    else if !IsBlank(s[0]) then [s[0]] + CollapseBlanks(s[1..])
    else if |s| > 1 && IsBlank(s[1]) then CollapseBlanks(s[1..])
    else " " + CollapseBlanks(s[1..])
  }

  /** The non-empty lines, with blanks collapsed and ends stripped. */
  function CleanLines(ls: seq<string>): seq<string> {
    if ls == [] then []
    else
      var line := Strip(CollapseBlanks(ls[0]));
      (if line != "" then [line] else []) + CleanLines(ls[1..])
  }

  function Markdown(parts: seq<string>): string {
    JoinWith("\n\n", CleanLines(SplitLines(JoinWith(" ", parts))))
  }

  function Flush(word: string): seq<string> { if word == "" then [] else [word] }

  /** The white-space separated words of `word + s`, where `word` is the word being read. */
  function WordsFrom(word: string, s: string): seq<string>
    decreases s
  {
    if s == "" then Flush(word)
    else if IsSpace(s[0]) then Flush(word) + WordsFrom("", s[1..])
    else WordsFrom(word + [s[0]], s[1..])
  }

  function Words(s: string): seq<string> { WordsFrom("", s) }

  function AllWords(ss: seq<string>): seq<string> {
    if ss == [] then [] else Words(ss[0]) + AllWords(ss[1..])
  }

  lemma {:induction false} WordsSplit(word: string, a: string, c: char, b: string)
    requires IsSpace(c)
    ensures WordsFrom(word, a + [c] + b) == WordsFrom(word, a) + Words(b)
    decreases a
  {
    if a == "" {
      assert ("" + [c] + b)[1..] == b;
    } else {
      assert (a + [c] + b)[1..] == a[1..] + [c] + b;
      WordsSplit(if IsSpace(a[0]) then "" else word + [a[0]], a[1..], c, b);
    }
  }

  lemma {:induction false} WordsLStrip(s: string)
    ensures Words(LStrip(s)) == Words(s)
  {
    if s != "" && IsSpace(s[0]) {
      WordsLStrip(s[1..]);
    }
  }

  lemma {:induction false} WordsRStrip(s: string)
    ensures Words(RStrip(s)) == Words(s)
  {
    if s != "" && IsSpace(s[|s| - 1]) {
      var t, c := s[..|s| - 1], s[|s| - 1];
      WordsRStrip(t);
      WordsSplit("", t, c, "");
      assert t + [c] + "" == s;
    }
  }

  lemma {:induction false} WordsCollapse(word: string, s: string)
    ensures WordsFrom(word, CollapseBlanks(s)) == WordsFrom(word, s)
    decreases s
  {
    if s != "" {
      var r := CollapseBlanks(s[1..]);
      if !IsBlank(s[0]) {
        WordsCollapse(if IsSpace(s[0]) then "" else word + [s[0]], s[1..]);
        assert ([s[0]] + r)[1..] == r;
      } else if |s| > 1 && IsBlank(s[1]) {
        WordsCollapse(word, s[1..]);
      } else {
        WordsCollapse("", s[1..]);
        assert (" " + r)[1..] == r;
      }
    }
  }

  lemma {:induction false} WordsOfLines(word: string, s: string)
    ensures WordsFrom(word, s) == WordsFrom(word, SplitLines(s)[0]) + AllWords(SplitLines(s)[1..])
    decreases s
  {
    assert IsSpace('\n');
    hide IsSpace;
    if s != "" {
      var ls := SplitLines(s[1..]);
      if s[0] == '\n' {
        WordsOfLines("", s[1..]);
        assert ([""] + ls)[1..] == ls;
        assert AllWords(ls) == Words(ls[0]) + AllWords(ls[1..]);
      } else {
        WordsOfLines(if IsSpace(s[0]) then "" else word + [s[0]], s[1..]);
        assert ([[s[0]] + ls[0]] + ls[1..])[1..] == ls[1..];
        assert ([s[0]] + ls[0])[1..] == ls[0];
      }
    }
  }

  lemma WordsOfCleanLine(line: string)
    ensures Words(Strip(CollapseBlanks(line))) == Words(line)
  {
    var c := CollapseBlanks(line);
    WordsCollapse("", line);
    WordsLStrip(c);
    WordsRStrip(LStrip(c));
  }

  lemma {:induction false} WordsOfCleanLines(ls: seq<string>)
    ensures AllWords(CleanLines(ls)) == AllWords(ls)
  {
    hide Strip, CollapseBlanks;
    if ls != [] {
      var line, rest := Strip(CollapseBlanks(ls[0])), CleanLines(ls[1..]);
      WordsOfCleanLines(ls[1..]);
      WordsOfCleanLine(ls[0]);
      assert ([line] + rest)[1..] == rest && [] + rest == rest;
    }
  }

  lemma {:induction false} WordsJoin(sep: string, ps: seq<string>)
    requires sep == " " || sep == "\n\n"
    ensures Words(JoinWith(sep, ps)) == AllWords(ps)
  {
    if |ps| == 1 {
      assert ps[1..] == [];
    } else if |ps| > 1 {
      var rest := JoinWith(sep, ps[1..]);
      WordsJoin(sep, ps[1..]);
      if sep == " " {
        WordsSplit("", ps[0], ' ', rest);
      } else {
        WordsSplit("", ps[0], '\n', "\n" + rest);
        assert ps[0] + ['\n'] + ("\n" + rest) == ps[0] + sep + rest;
        assert ("\n" + rest)[1..] == rest;
      }
    }
  }

  /** Rendering moves white space around, but keeps every word of every part, in order. */
  lemma MarkdownKeepsWords(parts: seq<string>)
    ensures Words(Markdown(parts)) == AllWords(parts)
  {
    var raw := JoinWith(" ", parts);
    var ls := SplitLines(raw);
    WordsJoin(" ", parts);
    WordsOfLines("", raw);
    assert AllWords(ls) == Words(ls[0]) + AllWords(ls[1..]);
    WordsOfCleanLines(ls);
    WordsJoin("\n\n", CleanLines(ls));
  }

  lemma {:induction false} AllWordsSnoc(ss: seq<string>, s: string)
    ensures AllWords(ss + [s]) == AllWords(ss) + Words(s)
  {
    if ss == [] {
      assert [s][1..] == [];
    } else {
      AllWordsSnoc(ss[1..], s);
      assert (ss + [s])[1..] == ss[1..] + [s];
    }
  }

  lemma NewlineHasNoWords()
    ensures Words(NEWLINE) == []
  {
  }

  lemma {:induction false} BreaksHaveNoWords(parts: seq<string>)
    ensures AllWords(Texts(parts)) == AllWords(parts)
  {
    NewlineHasNoWords();
    hide Words, AllWords;
    if parts != [] {
      var init, last := parts[..|parts| - 1], parts[|parts| - 1];
      assert init + [last] == parts && AllWords(init) + [] == AllWords(init);
      BreaksHaveNoWords(init);
      AllWordsSnoc(init, last);
      AllWordsSnoc(Texts(init), last);
      assert Texts(parts) == Texts(init) + if last == NEWLINE then [] else [last];
      assert Texts(init) + [] == Texts(init);
    }
  }

  /** End to end: the markdown of a shielded document has exactly the words of its visible texts, in
      document order, and nothing is left suppressed. */
  lemma MarkdownShowsVisibleText(f: Forest)
    requires Shielded(f)
    ensures var end := Run(State([], []), Events(f));
            && end.stack == [] && Texts(end.parts) == Visible(f)
            && Words(Markdown(end.parts)) == AllWords(Visible(f))
  {
    hide Shielded, ShowsEverywhere, Run, Events, Words, Markdown, AllWords, Shows, StackAfter;
    var end := Run(State([], []), Events(f));
    TextsComeOutRightIff(f);
    ShowsRun(f, State([], []), false);
    RunsLikeItsStack(State([], []), Events(f));
    ShowsBehind(f, [], false);
    ShowsIff(StackAfter([], Events(f)), false);
    NoTexts();
    MarkdownKeepsWords(end.parts);
    BreaksHaveNoWords(end.parts);
  }
}
