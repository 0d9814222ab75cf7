/** The lines of the extracted markdown: which words stand on one line, which block elements of a document
    end one, and what the elements inside a hidden one still do to the text around it. */
module Paragraphs {
  import opened Strings
  import opened Wrappers
  import opened Extract

  // ---------- words and line breaks ----------

  datatype Token = Word(w: string) | Break

  function Pending(word: string): seq<Token> { if word == "" then [] else [Word(word)] }

  /** The words of `word + s`, separated by blanks and tabs, and its line breaks, in order; `word` is the word
      being read. */
  function TokensFrom(word: string, s: string): seq<Token>
    decreases s
  {
    if s == "" then Pending(word)
    else if s[0] == '\n' then Pending(word) + ([Break] + TokensFrom("", s[1..]))
    else if IsBlank(s[0]) then Pending(word) + TokensFrom("", s[1..])
    else TokensFrom(word + [s[0]], s[1..])
  }

  function Tokens(s: string): seq<Token> { TokensFrom("", s) }

  function AllTokens(ss: seq<string>): seq<Token> {
    if ss == [] then [] else Tokens(ss[0]) + AllTokens(ss[1..])
  }

  /** The words of each line: a word goes on the current line, a break ends it. */
  function Lines(ts: seq<Token>): (ls: seq<seq<string>>)
    ensures ls != []
  {
    if ts == [] then [[]]
    else
      var ls := Lines(ts[1..]);
      match ts[0] case Break => [[]] + ls case Word(w) => [[w] + ls[0]] + ls[1..]
  }

  /** The lines that are not empty: their words joined by single blanks, and stripped of the white space other
      than blanks and tabs that may stand at the ends of words. */
  function Rendered(lines: seq<seq<string>>): seq<string> {
    if lines == [] then []
    else
      var text := Strip(JoinWith(" ", lines[0]));
      (if text != "" then [text] else []) + Rendered(lines[1..])
  }

  /** The paragraphs of a text: `text.split("\n\n")`. */
  function SplitParagraphs(s: string): (ps: seq<string>)
    ensures ps != []
    decreases |s|
  {
    if s == "" then [""]
    else if |s| >= 2 && s[0] == '\n' && s[1] == '\n' then [""] + SplitParagraphs(s[2..])
    else
      var ps := SplitParagraphs(s[1..]);
      [[s[0]] + ps[0]] + ps[1..]
  }

  // ---------- rendering is reading off the lines ----------

  lemma {:induction false} TokensSplit(word: string, a: string, b: string)
    ensures TokensFrom(word, a + (" " + b)) == TokensFrom(word, a) + Tokens(b)
    decreases a
  {
    if a == "" {
      assert ("" + (" " + b)) == " " + b && (" " + b)[1..] == b;
    } else {
      assert (a + (" " + b))[1..] == a[1..] + (" " + b) && (a + (" " + b))[0] == a[0];
      if a[0] == '\n' || IsBlank(a[0]) {
        TokensSplit("", a[1..], b);
      } else {
        TokensSplit(word + [a[0]], a[1..], b);
      }
    }
  }

  lemma {:induction false} TokensJoin(ps: seq<string>)
    ensures Tokens(JoinWith(" ", ps)) == AllTokens(ps)
  {
    if |ps| == 1 {
      assert ps[1..] == [];
    } else if |ps| > 1 {
      TokensJoin(ps[1..]);
      TokensSplit("", ps[0], JoinWith(" ", ps[1..]));
      assert ps[0] + " " + JoinWith(" ", ps[1..]) == ps[0] + (" " + JoinWith(" ", ps[1..]));
    }
  }

  /** The words of one line. */
  function LineWords(word: string, s: string): seq<string>
    decreases s
  {
    if s == "" then Flush(word)
    else if IsBlank(s[0]) then Flush(word) + LineWords("", s[1..])
    else LineWords(word + [s[0]], s[1..])
  }

  function WordsOfLines(ls: seq<string>): seq<seq<string>> {
    if ls == [] then [] else [LineWords("", ls[0])] + WordsOfLines(ls[1..])
  }

  lemma LinesPending(word: string, ts: seq<Token>)
    ensures Lines(Pending(word) + ts) == [Flush(word) + Lines(ts)[0]] + Lines(ts)[1..]
  {
    if word == "" {
      assert Pending(word) + ts == ts && Flush(word) + Lines(ts)[0] == Lines(ts)[0];
      assert [Lines(ts)[0]] + Lines(ts)[1..] == Lines(ts);
    } else {
      assert (Pending(word) + ts)[1..] == ts;
    }
  }

  lemma LinesBreak(ts: seq<Token>)
    ensures Lines([Break] + ts) == [[]] + Lines(ts)
  {
    assert ([Break] + ts)[1..] == ts;
  }

  lemma {:induction false} LinesOfText(word: string, s: string)
    ensures var ls := SplitLines(s);
            Lines(TokensFrom(word, s)) == [LineWords(word, ls[0])] + WordsOfLines(ls[1..])
    decreases s
  {
    hide Lines;
    if s == "" {
      LinesPending(word, []);
      NoLines();
      assert Pending(word) + [] == Pending(word) && Flush(word) + [] == Flush(word);
    } else {
      var ls := SplitLines(s[1..]);
      if s[0] == '\n' {
        LinesOfText("", s[1..]);
        LinesPending(word, [Break] + Tokens(s[1..]));
        LinesBreak(Tokens(s[1..]));
        assert ([""] + ls)[1..] == ls && WordsOfLines(ls) == [LineWords("", ls[0])] + WordsOfLines(ls[1..]);
        assert Flush(word) + [] == Flush(word);
      } else {
        var first := [s[0]] + ls[0];
        assert first[1..] == ls[0] && ([first] + ls[1..])[1..] == ls[1..];
        if IsBlank(s[0]) {
          LinesOfText("", s[1..]);
          LinesPending(word, Tokens(s[1..]));
        } else {
          LinesOfText(word + [s[0]], s[1..]);
        }
      }
    }
  }

  lemma NoLines()
    ensures Lines([]) == [[]]
  {
  }

  /** A blank that collapsing leaves at the head of `word + s`. */
  function Lead(word: string, s: string): string {
    if word == "" && s != "" && IsBlank(s[0]) then " " else ""
  }

  lemma JoinFirst(w: string, ws: seq<string>)
    ensures ws != [] ==> JoinWith(" ", [w] + ws) == w + " " + JoinWith(" ", ws)
    ensures JoinWith(" ", [w]) == w && JoinWith(" ", []) == ""
  {
    assert ([w] + ws)[1..] == ws;
  }

  lemma CollapseCases(s: string)
    requires s != ""
    ensures !IsBlank(s[0]) ==> CollapseBlanks(s) == [s[0]] + CollapseBlanks(s[1..])
    ensures IsBlank(s[0]) && |s| > 1 && IsBlank(s[1]) ==> CollapseBlanks(s) == CollapseBlanks(s[1..])
    ensures IsBlank(s[0]) && !(|s| > 1 && IsBlank(s[1])) ==> CollapseBlanks(s) == " " + CollapseBlanks(s[1..])
  {
  }

  lemma LineWordsCases(word: string, s: string)
    requires s != ""
    ensures IsBlank(s[0]) ==> LineWords(word, s) == Flush(word) + LineWords("", s[1..])
    ensures !IsBlank(s[0]) ==> LineWords(word, s) == LineWords(word + [s[0]], s[1..])
  {
  }

  /** Collapsing leaves the words joined by single blanks, and at most one blank before and behind. */
  lemma {:induction false} CollapsedLine(word: string, s: string) returns (trail: string)
    ensures trail == "" || trail == " "
    ensures word + CollapseBlanks(s) == Lead(word, s) + JoinWith(" ", LineWords(word, s)) + trail
    decreases s
  {
    hide CollapseBlanks, LineWords, JoinWith, IsBlank;
    if s == "" {
      trail := "";
      CollapsedNothing(word);
    } else {
      CollapseCases(s);
      LineWordsCases(word, s);
      if !IsBlank(s[0]) {
        trail := CollapsedLine(word + [s[0]], s[1..]);
        assert word + ([s[0]] + CollapseBlanks(s[1..])) == (word + [s[0]]) + CollapseBlanks(s[1..]);
      } else if |s| > 1 && IsBlank(s[1]) {
        trail := CollapsedLine(word, s[1..]);
        LineWordsCases("", s[1..]);
        LineWordsCases(word, s[1..]);
        assert Flush("") + LineWords("", s[1..][1..]) == LineWords("", s[1..][1..]);
      } else {
        trail := CollapsedLine("", s[1..]);
        trail := CollapsedBreak(word, s[1..], trail);
      }
    }
  }

  lemma CollapsedNothing(word: string)
    ensures word + CollapseBlanks("") == Lead(word, "") + JoinWith(" ", LineWords(word, "")) + ""
  {
    JoinFirst(word, []);
  }

  lemma CollapsedBreak(word: string, s: string, trail: string) returns (behind: string)
    requires s == "" || !IsBlank(s[0])
    requires trail == "" || trail == " "
    requires "" + CollapseBlanks(s) == Lead("", s) + JoinWith(" ", LineWords("", s)) + trail
    ensures behind == "" || behind == " "
    ensures word + (" " + CollapseBlanks(s))
            == (if word == "" then " " else "") + JoinWith(" ", Flush(word) + LineWords("", s)) + behind
  {
    hide LineWords, JoinWith, IsBlank, CollapseBlanks;
    var rest := LineWords("", s);
    NoLead(s, JoinWith(" ", rest), trail);
    JoinFirst(word, rest);
    if word == "" {
      behind := trail;
      assert Flush(word) + rest == rest;
      BlankBefore(JoinWith(" ", rest), trail);
    } else if rest == [] {
      behind := " ";
      NoWordsNoText(s);
      assert Flush(word) + rest == [word];
      BlankBehind(word);
    } else {
      behind := trail;
      BlankBetween(word, JoinWith(" ", rest), trail);
    }
  }

  lemma NoLead(s: string, joined: string, trail: string)
    requires s == "" || !IsBlank(s[0])
    requires "" + CollapseBlanks(s) == Lead("", s) + joined + trail
    ensures CollapseBlanks(s) == joined + trail
  {
    hide CollapseBlanks;
    assert "" + joined == joined && "" + CollapseBlanks(s) == CollapseBlanks(s);
  }

  lemma BlankBefore(joined: string, trail: string)
    ensures "" + (" " + (joined + trail)) == " " + joined + trail
  {
  }

  lemma BlankBehind(word: string)
    ensures word + (" " + "") == "" + word + " "
  {
  }

  lemma BlankBetween(word: string, joined: string, trail: string)
    ensures word + (" " + (joined + trail)) == "" + (word + " " + joined) + trail
  {
  }

  lemma NoWordsNoText(s: string)
    requires (s == "" || !IsBlank(s[0])) && LineWords("", s) == []
    ensures s == "" && CollapseBlanks(s) == ""
  {
    if s != "" {
      LineWordsNotEmpty("" + [s[0]], s[1..]);
    }
  }

  lemma {:induction false} LineWordsNotEmpty(word: string, s: string)
    requires word != ""
    ensures LineWords(word, s) != []
    decreases s
  {
    if s != "" && !IsBlank(s[0]) {
      LineWordsNotEmpty(word + [s[0]], s[1..]);
    }
  }

  lemma {:induction false} LStripTrail(x: string)
    ensures LStrip(x + " ") == if LStrip(x) == "" then "" else LStrip(x) + " "
  {
    BlankIsSpace();
    hide IsSpace;
    if x == "" {
      assert x + " " == " " && " "[1..] == "";
    } else {
      assert (x + " ")[0] == x[0] && (x + " ")[1..] == x[1..] + " ";
      if IsSpace(x[0]) {
        LStripTrail(x[1..]);
      }
    }
  }

  lemma StripOuter(lead: string, x: string, trail: string)
    requires (lead == "" || lead == " ") && (trail == "" || trail == " ")
    ensures Strip(lead + x + trail) == Strip(x)
  {
    hide IsSpace;
    var y := x + trail;
    assert lead + x + trail == lead + y;
    BlankIsSpace();
    if lead == " " {
      assert (lead + y)[1..] == y && LStrip(lead + y) == LStrip(y);
    } else {
      assert lead + y == y;
    }
    if trail == " " {
      LStripTrail(x);
      RStripTrail(LStrip(x));
    } else {
      assert y == x;
    }
  }

  lemma BlankIsSpace()
    ensures IsSpace(' ')
  {
  }

  lemma RStripTrail(x: string)
    ensures RStrip(x + " ") == RStrip(x) && RStrip("") == ""
  {
    assert (x + " ")[..|x|] == x;
  }

  lemma CleanLineIs(line: string)
    ensures Strip(CollapseBlanks(line)) == Strip(JoinWith(" ", LineWords("", line)))
  {
    var trail := CollapsedLine("", line);
    assert "" + CollapseBlanks(line) == CollapseBlanks(line);
    StripOuter(Lead("", line), JoinWith(" ", LineWords("", line)), trail);
  }

  lemma {:induction false} CleanLinesAreRendered(ls: seq<string>)
    ensures CleanLines(ls) == Rendered(WordsOfLines(ls))
  {
    hide Strip, CollapseBlanks, LineWords, JoinWith;
    if ls != [] {
      CleanLinesAreRendered(ls[1..]);
      CleanLineIs(ls[0]);
      var words := WordsOfLines(ls);
      assert words[0] == LineWords("", ls[0]) && words[1..] == WordsOfLines(ls[1..]);
    }
  }

  /** The lines that rendering puts together. */
  lemma RenderedLines(parts: seq<string>)
    ensures Markdown(parts) == JoinWith("\n\n", Rendered(Lines(AllTokens(parts))))
  {
    var raw := JoinWith(" ", parts);
    var ls := SplitLines(raw);
    hide Lines, AllTokens, Rendered, JoinWith, SplitLines, CleanLines;
    TokensJoin(parts);
    LinesOfText("", raw);
    CleanLinesAreRendered(ls);
    assert WordsOfLines(ls) == [LineWords("", ls[0])] + WordsOfLines(ls[1..]);
  }

  // ---------- reading the paragraphs back ----------

  lemma {:induction false} SplitFirst(p: string, rest: string)
    requires '\n' !in p
    ensures SplitParagraphs(p + ("\n\n" + rest)) == [p] + SplitParagraphs(rest)
    ensures SplitParagraphs(p) == [p]
  {
    if p == "" {
      assert "" + ("\n\n" + rest) == "\n\n" + rest && ("\n\n" + rest)[2..] == rest;
    } else {
      var t := p + ("\n\n" + rest);
      assert t[0] == p[0] && p[0] in p && t[1..] == p[1..] + ("\n\n" + rest);
      SplitFirst(p[1..], rest);
      assert [p[0]] + p[1..] == p;
    }
  }

  lemma {:induction false} SplitJoined(ps: seq<string>)
    requires ps != [] && forall p | p in ps :: '\n' !in p
    ensures SplitParagraphs(JoinWith("\n\n", ps)) == ps
  {
    hide SplitParagraphs;
    assert ps[0] in ps && forall p | p in ps[1..] :: p in ps;
    if |ps| == 1 {
      SplitFirst(ps[0], "");
      assert [ps[0]] == ps;
    } else {
      var rest := JoinWith("\n\n", ps[1..]);
      SplitJoined(ps[1..]);
      SplitFirst(ps[0], rest);
      assert ps[0] + "\n\n" + rest == ps[0] + ("\n\n" + rest) && [ps[0]] + ps[1..] == ps;
    }
  }

  ghost predicate WordText(w: string) { w != "" && forall c | c in w :: c != '\n' && !IsBlank(c) }

  ghost predicate ProperTokens(ts: seq<Token>) { forall t | t in ts && t.Word? :: WordText(t.w) }

  lemma {:induction false} TokensAreProper(word: string, s: string)
    requires word == "" || WordText(word)
    ensures ProperTokens(TokensFrom(word, s))
    decreases s
  {
    if s != "" {
      if s[0] == '\n' || IsBlank(s[0]) {
        TokensAreProper("", s[1..]);
      } else {
        TokensAreProper(word + [s[0]], s[1..]);
      }
    }
  }

  lemma {:induction false} AllTokensAreProper(ss: seq<string>)
    ensures ProperTokens(AllTokens(ss))
  {
    hide TokensFrom, WordText;
    if ss != [] {
      TokensAreProper("", ss[0]);
      AllTokensAreProper(ss[1..]);
    }
  }

  ghost predicate ProperLines(ls: seq<seq<string>>) { forall l, w | l in ls && w in l :: WordText(w) }

  lemma {:induction false} LinesAreProper(ts: seq<Token>)
    requires ProperTokens(ts)
    ensures ProperLines(Lines(ts))
  {
    hide WordText;
    if ts != [] {
      assert ts[0] in ts && forall t | t in ts[1..] :: t in ts;
      LinesAreProper(ts[1..]);
      var ls := Lines(ts[1..]);
      assert ls[0] in ls && forall l | l in ls[1..] :: l in ls;
    }
  }

  lemma {:induction false} JoinedChars(ws: seq<string>)
    requires forall w | w in ws :: WordText(w)
    ensures '\n' !in JoinWith(" ", ws)
  {
    if ws != [] {
      assert ws[0] in ws && forall w | w in ws[1..] :: w in ws;
      JoinedChars(ws[1..]);
    }
  }

  lemma StripChars(s: string, c: char)
    requires c !in s
    ensures c !in Strip(s)
  {
    var t := LStrip(s);
    assert t == s[|s| - |t|..] && RStrip(t) == t[..|RStrip(t)|];
  }

  lemma {:induction false} RenderedChars(ls: seq<seq<string>>)
    requires ProperLines(ls)
    ensures forall p | p in Rendered(ls) :: '\n' !in p && p != ""
  {
    hide WordText, JoinWith, Strip;
    if ls != [] {
      assert ls[0] in ls && forall l | l in ls[1..] :: l in ls;
      JoinedChars(ls[0]);
      StripChars(JoinWith(" ", ls[0]), '\n');
      RenderedChars(ls[1..]);
    }
  }

  /** The markdown's paragraphs, split at empty lines, are the lines of its parts that are not empty: each
      holds the words between two line breaks, wherever these come from, joined by single blanks. */
  lemma MarkdownParagraphs(parts: seq<string>)
    ensures var ps := Rendered(Lines(AllTokens(parts)));
            if ps == [] then Markdown(parts) == "" else SplitParagraphs(Markdown(parts)) == ps
  {
    hide Markdown, Rendered, Lines, AllTokens, JoinWith, SplitParagraphs;
    RenderedLines(parts);
    AllTokensAreProper(parts);
    LinesAreProper(AllTokens(parts));
    RenderedChars(Lines(AllTokens(parts)));
    var ps := Rendered(Lines(AllTokens(parts)));
    if ps == [] {
      JoinNothing();
    } else {
      SplitJoined(ps);
    }
  }

  lemma JoinNothing()
    ensures JoinWith("\n\n", []) == ""
  {
  }

  // ---------- lines put together ----------

  /** The lines of two texts in a row: the last line of the first goes on in the first of the second. */
  function Glue(ls: seq<seq<string>>, ms: seq<seq<string>>): seq<seq<string>>
    requires ls != [] && ms != []
  {
    ls[..|ls| - 1] + [ls[|ls| - 1] + ms[0]] + ms[1..]
  }

  lemma {:induction false} LinesConcat(a: seq<Token>, b: seq<Token>)
    ensures Lines(a + b) == Glue(Lines(a), Lines(b))
  {
    if a == [] {
      assert a + b == b && Lines(a) == [[]] && [] + Lines(b)[0] == Lines(b)[0];
    } else {
      assert (a + b)[0] == a[0] && (a + b)[1..] == a[1..] + b;
      LinesConcat(a[1..], b);
      GlueFirst(a[0], Lines(a[1..]), Lines(b));
    }
  }

  /** The lines with one more token in front. */
  function Before(t: Token, ls: seq<seq<string>>): seq<seq<string>>
    requires ls != []
  {
    match t case Break => [[]] + ls case Word(w) => [[w] + ls[0]] + ls[1..]
  }

  lemma GlueFirst(t: Token, ls: seq<seq<string>>, ms: seq<seq<string>>)
    requires ls != [] && ms != []
    ensures Before(t, Glue(ls, ms)) == Glue(Before(t, ls), ms)
  {
    var n := |ls| - 1;
    match t {
      case Break => assert ([[]] + ls)[..n + 1] == [[]] + ls[..n];
      case Word(w) =>
        var longer := [[w] + ls[0]] + ls[1..];
        if n == 0 {
          assert [w] + (ls[0] + ms[0]) == ([w] + ls[0]) + ms[0] && longer[..0] == [];
        } else {
          assert longer[..n] == [[w] + ls[0]] + ls[1..n] && longer[n] == ls[n];
        }
    }
  }

  lemma {:induction false} RenderedConcat(ls: seq<seq<string>>, ms: seq<seq<string>>)
    ensures Rendered(ls + ms) == Rendered(ls) + Rendered(ms)
  {
    hide Strip, JoinWith;
    if ls == [] {
      assert ls + ms == ms;
    } else {
      assert (ls + ms)[0] == ls[0] && (ls + ms)[1..] == ls[1..] + ms;
      RenderedConcat(ls[1..], ms);
    }
  }

  /** The same finished paragraphs, and the same line to go on with. */
  ghost predicate Alike(ls: seq<seq<string>>, ms: seq<seq<string>>) {
    && ls != [] && ms != [] && ls[|ls| - 1] == ms[|ms| - 1]
    && Rendered(ls[..|ls| - 1]) == Rendered(ms[..|ms| - 1])
  }

  lemma AlikeRendered(ls: seq<seq<string>>, ms: seq<seq<string>>)
    requires Alike(ls, ms)
    ensures Rendered(ls) == Rendered(ms)
  {
    hide Rendered;
    var l := [ls[|ls| - 1]];
    assert ls == ls[..|ls| - 1] + l && ms == ms[..|ms| - 1] + l;
    RenderedConcat(ls[..|ls| - 1], l);
    RenderedConcat(ms[..|ms| - 1], l);
  }

  lemma AlikeGlued(ls: seq<seq<string>>, ms: seq<seq<string>>, xs: seq<seq<string>>)
    requires Alike(ls, ms) && xs != []
    ensures Alike(Glue(ls, xs), Glue(ms, xs))
  {
    hide Rendered;
    var m, n := |ls| - 1, |ms| - 1;
    var joined := ls[m] + xs[0];
    if |xs| == 1 {
      assert Glue(ls, xs)[..m] == ls[..m] && Glue(ms, xs)[..n] == ms[..n];
    } else {
      var more := [joined] + xs[1..|xs| - 1];
      assert Glue(ls, xs)[..|Glue(ls, xs)| - 1] == ls[..m] + more;
      assert Glue(ms, xs)[..|Glue(ms, xs)| - 1] == ms[..n] + more;
      RenderedConcat(ls[..m], more);
      RenderedConcat(ms[..n], more);
    }
  }

  // ---------- the lines of a document ----------

  /** A document as it is read: its visible texts, and the ends of lines that block elements cause. */
  datatype Item = Shown(text: string) | Boundary

  function BoundaryIf(c: bool): seq<Item> { if c then [Boundary] else [] }

  /** A visible block element ends a line where it starts and where it ends; one inside a hidden element
      still does where it ends. */
  function Flow(f: Forest, hidden: bool): seq<Item> {
    match f
    case Empty => []
    case Text(data, rest) => (if hidden || Strip(data) == "" then [] else [Shown(Strip(data))]) + Flow(rest, hidden)
    case Note(_, rest) => Flow(rest, hidden)
    case Element(tag, _, closed, kids, rest) =>
      BoundaryIf(!hidden && !f.Drops() && tag in BLOCK_TAGS)
      + (Flow(kids, hidden || f.Drops())
         + (BoundaryIf(closed && !f.Drops() && tag in BLOCK_TAGS) + Flow(rest, hidden)))
  }

  function ItemTokens(x: Item): seq<Token> { match x case Shown(text) => Tokens(text) case Boundary => [Break] }

  function FlowTokens(items: seq<Item>): seq<Token> {
    if items == [] then [] else ItemTokens(items[0]) + FlowTokens(items[1..])
  }

  function Broken(parts: seq<string>): seq<string> {
    if parts != [] && parts[|parts| - 1] != NEWLINE then parts + [NEWLINE] else parts
  }

  /** The parts the extractor collects from the items. */
  function Collected(parts: seq<string>, items: seq<Item>): seq<string>
    decreases |items|
  {
    if items == [] then parts
    else Collected(match items[0] case Shown(text) => parts + [text] case Boundary => Broken(parts), items[1..])
  }

  lemma {:induction false} CollectedConcat(parts: seq<string>, a: seq<Item>, b: seq<Item>)
    ensures Collected(parts, a + b) == Collected(Collected(parts, a), b)
    decreases |a|
  {
    hide Broken;
    if a == [] {
      assert a + b == b;
    } else {
      assert (a + b)[0] == a[0] && (a + b)[1..] == a[1..] + b;
      CollectedConcat(match a[0] case Shown(text) => parts + [text] case Boundary => Broken(parts), a[1..], b);
    }
  }

  lemma CollectedOne(parts: seq<string>, text: string, c: bool)
    ensures Collected(parts, []) == parts && Collected(parts, [Shown(text)]) == parts + [text]
    ensures Collected(parts, BoundaryIf(c)) == if c then Broken(parts) else parts
  {
    assert [Shown(text)][1..] == [] && [Boundary][1..] == [];
  }

  lemma PartsStep(st: State, e: Event)
    ensures e.StartTag? ==>
              Step(st, e).parts
              == if st.stack == [] && !Suppressed(e.tag, e.hidden) && e.tag in BLOCK_TAGS then Broken(st.parts)
                 else st.parts
    ensures e.EndTag? ==>
              Step(st, e).parts
              == if Top(st.stack) != Some(e.tag) && e.tag in BLOCK_TAGS then Broken(st.parts) else st.parts
    ensures e.Data? ==>
              Step(st, e).parts
              == if st.stack != [] || Strip(e.data) == "" then st.parts else st.parts + [Strip(e.data)]
  {
    hide Strip, Suppressed;
  }

  /** In a guarded document, the extractor collects the items of its reading. */
  lemma {:induction false} FlowCollected(f: Forest, st: State)
    requires Guarded(f, Top(st.stack))
    ensures Run(st, Events(f)).parts == Collected(st.parts, Flow(f, st.stack != []))
    decreases f
  {
    hide Step, Run, Events, Strip, Suppressed, Collected, Broken;
    var hidden := st.stack != [];
    CollectedOne(st.parts, "", false);
    match f {
      case Empty => RunEmpty(st);
      case Text(data, rest) =>
        var s1 := Step(st, Data(data));
        RunText(st, data, rest);
        PartsStep(st, Data(data));
        StackStep(st, Data(data));
        FlowCollected(rest, s1);
        CollectedOne(st.parts, Strip(data), false);
        CollectedConcat(st.parts, if hidden || Strip(data) == "" then [] else [Shown(Strip(data))], Flow(rest, hidden));
      case Note(data, rest) =>
        RunText(st, data, rest);
        FlowCollected(rest, st);
      case Element(_, _, _, _, _) => FlowCollectedElement(f, st);
    }
  }

  lemma FlowCollectedElement(f: Forest, st: State)
    requires f.Element? && Guarded(f, Top(st.stack))
    ensures Run(st, Events(f)).parts == Collected(st.parts, Flow(f, st.stack != []))
    decreases f, 0
  {
    hide Step, Run, Events, Strip, Suppressed, Collected, Broken, Guarded, Flow;
    var hidden, drops := st.stack != [], f.Drops();
    var opens := BoundaryIf(!hidden && !drops && f.tag in BLOCK_TAGS);
    var closes := BoundaryIf(f.closed && !drops && f.tag in BLOCK_TAGS);
    var kids, rest := Flow(f.kids, hidden || drops), Flow(f.rest, hidden);
    GuardedParts(f, Top(st.stack));
    FlowOfElement(f, hidden);
    var s1 := Step(st, StartTag(f.tag, f.hidden));
    PartsStep(st, StartTag(f.tag, f.hidden));
    StackStep(st, StartTag(f.tag, f.hidden));
    FlowCollected(f.kids, s1);
    GuardedRun(s1, f.kids);
    var s2 := Run(s1, Events(f.kids));
    PartsStep(s2, EndTag(f.tag));
    StackStep(s2, EndTag(f.tag));
    var s3 := if f.closed then Step(s2, EndTag(f.tag)) else s2;
    assert s3.stack == st.stack;
    RunElement(st, f);
    FlowCollected(f.rest, s3);
    CollectedOne(st.parts, "", !hidden && !drops && f.tag in BLOCK_TAGS);
    CollectedOne(s2.parts, "", f.closed && !drops && f.tag in BLOCK_TAGS);
    CollectedConcat(st.parts, opens, kids + (closes + rest));
    CollectedConcat(s1.parts, kids, closes + rest);
    CollectedConcat(s2.parts, closes, rest);
  }

  lemma GuardedParts(f: Forest, top: Option<string>)
    requires f.Element? && Guarded(f, top)
    ensures Guarded(f.rest, top) && Guarded(f.kids, if f.Drops() then Some(f.tag) else top)
    ensures f.Drops() ==> f.closed
    ensures !f.Drops() && f.closed ==> top != Some(f.tag)
  {
    hide Suppressed;
  }

  lemma FlowOfElement(f: Forest, hidden: bool)
    requires f.Element?
    ensures Flow(f, hidden)
            == BoundaryIf(!hidden && !f.Drops() && f.tag in BLOCK_TAGS)
               + (Flow(f.kids, hidden || f.Drops())
                  + (BoundaryIf(f.closed && !f.Drops() && f.tag in BLOCK_TAGS) + Flow(f.rest, hidden)))
  {
    hide Suppressed;
  }

  lemma {:induction false} AllTokensSnoc(parts: seq<string>, part: string)
    ensures AllTokens(parts + [part]) == AllTokens(parts) + Tokens(part)
  {
    hide TokensFrom;
    if parts == [] {
      assert [part][1..] == [] && AllTokens([part]) == Tokens(part) + AllTokens([]);
    } else {
      assert (parts + [part])[0] == parts[0] && (parts + [part])[1..] == parts[1..] + [part];
      AllTokensSnoc(parts[1..], part);
      assert Tokens(parts[0]) + (AllTokens(parts[1..]) + Tokens(part)) == AllTokens(parts) + Tokens(part);
    }
  }

  lemma {:induction false} FlowTokensConcat(a: seq<Item>, b: seq<Item>)
    ensures FlowTokens(a + b) == FlowTokens(a) + FlowTokens(b)
  {
    hide ItemTokens;
    if a == [] {
      assert a + b == b;
    } else {
      assert (a + b)[0] == a[0] && (a + b)[1..] == a[1..] + b;
      FlowTokensConcat(a[1..], b);
      assert ItemTokens(a[0]) + (FlowTokens(a[1..]) + FlowTokens(b)) == FlowTokens(a) + FlowTokens(b);
    }
  }

  lemma FlowTokensOne(x: Item)
    ensures FlowTokens([x]) == ItemTokens(x)
  {
    hide ItemTokens;
    assert [x][1..] == [] && FlowTokens([]) == [];
  }

  lemma NewlineBreaks()
    ensures Tokens(NEWLINE) == [Break] && Lines([Break]) == [[], []] && Rendered([[]]) == []
  {
    assert NEWLINE[1..] == "" && TokensFrom("", "") == [];
    assert [Break][1..] == [] && Lines([]) == [[]];
    assert JoinWith(" ", []) == "" && Strip("") == "";
    var one: seq<seq<string>> := [[]];
    assert one[1..] == [];
  }

  /** A break that is not collected would have ended an empty line. */
  lemma EmptyLastLine(parts: seq<string>)
    requires parts == [] || parts[|parts| - 1] == NEWLINE
    ensures var ls := Lines(AllTokens(parts)); ls[|ls| - 1] == []
  {
    NewlineBreaks();
    if parts == [] {
      assert AllTokens(parts) == [];
      NoLines();
    } else {
      var before := parts[..|parts| - 1];
      assert parts == before + [NEWLINE];
      AllTokensSnoc(before, NEWLINE);
      LinesConcat(AllTokens(before), [Break]);
    }
  }

  lemma ItemKeepsAlike(parts: seq<string>, done: seq<Item>, x: Item)
    requires Alike(Lines(AllTokens(parts)), Lines(FlowTokens(done)))
    ensures Alike(Lines(AllTokens(Collected(parts, [x]))), Lines(FlowTokens(done + [x])))
  {
    hide Lines, AllTokens, FlowTokens, Rendered, TokensFrom, Alike;
    var ls, ms := Lines(AllTokens(parts)), Lines(FlowTokens(done));
    CollectedOne(parts, if x.Shown? then x.text else "", x.Boundary?);
    FlowTokensConcat(done, [x]);
    FlowTokensOne(x);
    NewlineBreaks();
    LinesConcat(FlowTokens(done), ItemTokens(x));
    LinesConcat(AllTokens(parts), ItemTokens(x));
    AlikeGlued(ls, ms, Lines(ItemTokens(x)));
    match x {
      case Shown(text) => AllTokensSnoc(parts, text);
      case Boundary =>
        if Broken(parts) == parts {
          EmptyLastLine(parts);
          BreakAfterEmpty(ls, ms);
        } else {
          AllTokensSnoc(parts, NEWLINE);
        }
    }
  }

  lemma BreakAfterEmpty(ls: seq<seq<string>>, ms: seq<seq<string>>)
    requires Alike(ls, ms) && ls[|ls| - 1] == []
    ensures Alike(ls, Glue(ms, [[], []]))
  {
    hide Rendered;
    NewlineBreaks();
    var xs, n := Glue(ms, [[], []]), |ms| - 1;
    assert ms[n] + [] == [] && xs == ms + [[]] && xs[..|xs| - 1] == ms && ms == ms[..n] + [[]];
    RenderedConcat(ms[..n], [[]]);
  }

  lemma {:induction false} CollectedLines(parts: seq<string>, done: seq<Item>, items: seq<Item>)
    requires Alike(Lines(AllTokens(parts)), Lines(FlowTokens(done)))
    ensures Alike(Lines(AllTokens(Collected(parts, items))), Lines(FlowTokens(done + items)))
    decreases |items|
  {
    hide Lines, AllTokens, FlowTokens, Alike, Broken;
    if items == [] {
      assert done + items == done;
    } else {
      var x, rest := items[0], items[1..];
      ItemKeepsAlike(parts, done, x);
      assert [x][1..] == [] && items == [x] + rest;
      CollectedLines(Collected(parts, [x]), done + [x], rest);
      CollectedConcat(parts, [x], rest);
      assert done + items == (done + [x]) + rest;
    }
  }

  /** The paragraphs of a guarded document's markdown are its lines: its visible texts in order, a line for
      each stretch of them between two ends of lines. */
  lemma DocumentParagraphs(f: Forest)
    requires Guarded(f, None)
    ensures var md := Markdown(Run(State([], []), Events(f)).parts);
            var ps := Rendered(Lines(FlowTokens(Flow(f, false))));
            if ps == [] then md == "" else SplitParagraphs(md) == ps
  {
    hide Run, Events, Flow, Markdown, Rendered, SplitParagraphs, Guarded, Lines, FlowTokens, AllTokens, Collected,
      Alike;
    var parts := Run(State([], []), Events(f)).parts;
    FlowCollected(f, State([], []));
    NothingAlike();
    var items := Flow(f, false);
    CollectedLines([], [], items);
    assert [] + items == items;
    AlikeRendered(Lines(AllTokens(parts)), Lines(FlowTokens(items)));
    MarkdownParagraphs(parts);
  }

  lemma NothingAlike()
    ensures Alike(Lines(AllTokens([])), Lines(FlowTokens([])))
  {
  }

  // ---------- which texts share a line ----------

  function Breaks(ts: seq<Token>): nat {
    if ts == [] then 0 else (if ts[0].Break? then 1 else 0) + Breaks(ts[1..])
  }

  /** The words read since the last break. */
  function Column(ts: seq<Token>): nat {
    if ts == [] then 0
    else if ts[|ts| - 1].Break? then 0
    else 1 + Column(ts[..|ts| - 1])
  }

  lemma {:induction false} BreaksConcat(a: seq<Token>, b: seq<Token>)
    ensures Breaks(a + b) == Breaks(a) + Breaks(b)
  {
    if a == [] {
      assert a + b == b;
    } else {
      assert (a + b)[0] == a[0] && (a + b)[1..] == a[1..] + b;
      BreaksConcat(a[1..], b);
    }
  }

  lemma {:induction false} LinesEnd(ts: seq<Token>)
    ensures var ls := Lines(ts); |ls| == Breaks(ts) + 1 && |ls[|ls| - 1]| == Column(ts)
  {
    hide Lines, Breaks;
    if ts == [] {
      NoLines();
      assert Breaks(ts) == 0 by {
        NoBreaks();
      }
    } else {
      var before, t := ts[..|ts| - 1], ts[|ts| - 1];
      assert ts == before + [t];
      LinesEnd(before);
      LinesConcat(before, [t]);
      BreaksConcat(before, [t]);
      OneToken(t);
    }
  }

  lemma NoBreaks()
    ensures Breaks([]) == 0
  {
  }

  lemma OneToken(t: Token)
    ensures Lines([t]) == (if t.Break? then [[], []] else [[t.w]]) && Breaks([t]) == if t.Break? then 1 else 0
  {
    assert [t][1..] == [] && Lines([]) == [[]];
    var one: seq<seq<string>> := [[]];
    assert one[1..] == [];
    if t.Word? {
      assert [t.w] + one[0] == [t.w];
    }
  }

  /** Every word stands on the line whose number is the number of breaks before it, behind the words since
      the last of them. */
  lemma WordOnItsLine(ts: seq<Token>, i: nat)
    requires i < |ts| && ts[i].Word?
    ensures var ls, n := Lines(ts), Breaks(ts[..i]);
            n < |ls| && Column(ts[..i]) < |ls[n]| && ls[n][Column(ts[..i])] == ts[i].w
  {
    hide Lines, Breaks, Column;
    var before, w, rest := ts[..i], ts[i].w, ts[i + 1..];
    assert ts == before + ([ts[i]] + rest);
    LinesEnd(before);
    LinesConcat(before, [ts[i]] + rest);
    LinesConcat([ts[i]], rest);
    OneToken(ts[i]);
  }

  lemma {:induction false} BreaksOfText(word: string, s: string)
    ensures Breaks(TokensFrom(word, s)) == 0 <==> '\n' !in s
    decreases s
  {
    hide Breaks;
    OneToken(Word(word));
    NoBreaks();
    if s != "" {
      var rest := s[1..];
      assert s == [s[0]] + rest;
      if s[0] == '\n' {
        BreaksConcat(Pending(word), [Break] + Tokens(rest));
        BreaksConcat([Break], Tokens(rest));
        OneToken(Break);
      } else if IsBlank(s[0]) {
        BreaksOfText("", rest);
        BreaksConcat(Pending(word), Tokens(rest));
      } else {
        BreaksOfText(word + [s[0]], rest);
      }
    }
  }

  /** A text without line breaks of its own. */
  predicate OnOneLine(x: Item) { x.Shown? && '\n' !in x.text }

  lemma {:induction false} BreaksOfItems(items: seq<Item>)
    ensures Breaks(FlowTokens(items)) == 0 <==> forall k | 0 <= k < |items| :: OnOneLine(items[k])
  {
    hide Breaks, TokensFrom;
    if items == [] {
      NoBreaks();
    } else {
      BreaksOfItems(items[1..]);
      BreaksConcat(ItemTokens(items[0]), FlowTokens(items[1..]));
      OneToken(Break);
      if items[0].Shown? {
        BreaksOfText("", items[0].text);
      }
      assert forall k | 0 < k < |items| :: items[k] == items[1..][k - 1];
    }
  }

  /** Where an item's words start among those of the document. */
  function StartOf(items: seq<Item>, i: nat): nat
    requires i <= |items|
  {
    |FlowTokens(items[..i])|
  }

  /** Two visible texts start on one line iff nothing between them ends one: no block element that starts or
      ends there, and no line break in a text. */
  lemma ShareALineIff(items: seq<Item>, i: nat, j: nat)
    requires i < j < |items|
    ensures var ts := FlowTokens(items);
            && StartOf(items, i) <= StartOf(items, j) <= |ts|
            && (Breaks(ts[..StartOf(items, i)]) == Breaks(ts[..StartOf(items, j)])
                <==> forall k | i <= k < j :: OnOneLine(items[k]))
  {
    hide Breaks, FlowTokens, ItemTokens;
    var a, b, c := items[..i], items[i..j], items[j..];
    assert items == a + (b + c) && items[..j] == a + b;
    FlowTokensConcat(a, b + c);
    FlowTokensConcat(b, c);
    FlowTokensConcat(a, b);
    var ts := FlowTokens(items);
    assert ts[..StartOf(items, i)] == FlowTokens(a) && ts[..StartOf(items, j)] == FlowTokens(a) + FlowTokens(b);
    BreaksConcat(FlowTokens(a), FlowTokens(b));
    BreaksOfItems(b);
    assert forall k | i <= k < j :: items[k] == b[k - i];
  }

  /** No plain block element that is closed. */
  predicate Silent(f: Forest) {
    match f
    case Empty => true
    case Text(_, rest) => Silent(rest)
    case Note(_, rest) => Silent(rest)
    case Element(tag, _, closed, kids, rest) =>
      Silent(kids) && Silent(rest) && !(closed && !f.Drops() && tag in BLOCK_TAGS)
  }

  /** What is hidden leaves no trace iff it holds no closed block element that is not itself hidden: the end
      tag of one still ends a line. */
  lemma {:induction false} HiddenLeavesNoTraceIff(f: Forest)
    ensures (forall x | x in Flow(f, true) :: x.Boundary?) && (Flow(f, true) == [] <==> Silent(f))
    decreases f
  {
    hide Suppressed, Strip;
    match f {
      case Empty =>
      case Text(_, rest) => HiddenLeavesNoTraceIff(rest);
      case Note(_, rest) => HiddenLeavesNoTraceIff(rest);
      case Element(_, _, _, kids, rest) =>
        HiddenLeavesNoTraceIff(kids);
        HiddenLeavesNoTraceIff(rest);
    }
  }
}
