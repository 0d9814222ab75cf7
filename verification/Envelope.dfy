/** The untrusted-source envelope: the printer that wraps a crawled page, and the scanner that
    finds the text outside envelopes. */
module Envelope {
  import opened Strings

  const OPEN := "<untrusted_source"
  const CLOSE := "</untrusted_source>"
  const NEUTRAL := "<\\/untrusted_source>"

  // ---------- printer ----------

  /** `html.escape(s, quote=True)` */
  function HtmlEscape(s: string): string {
    ReplaceAll(ReplaceAll(ReplaceAll(ReplaceAll(ReplaceAll(s,
      "&", "&amp;"), "<", "&lt;"), ">", "&gt;"), "\"", "&quot;"), "'", "&#x27;")
  }

  function OpenTag(url: string, contentHash: string): string {
    OPEN + " url=\"" + HtmlEscape(url) + "\" sha256=\"" + HtmlEscape(contentHash) + "\">"
  }

  function WrapUntrusted(url: string, contentHash: string, body: string): string {
    OpenTag(url, contentHash) + ReplaceAll(body, CLOSE, NEUTRAL) + CLOSE
  }

  // ---------- scanner ----------

  /** One turn of the scan: no open tag is left, an envelope is not closed, or a body is skipped. */
  datatype Turn = NoTag | NotClosed(start: nat) | Skip(start: nat, tagEnd: nat, bodyEnd: nat)

  function NextTurn(text: string, open_: string, close_: string, cursor: nat): (t: Turn)
    requires cursor <= |text|
    ensures t.NotClosed? ==> cursor <= t.start <= |text|
    ensures t.Skip? ==> cursor <= t.start <= t.tagEnd < t.bodyEnd <= |text|
  {
    var start := Find(text, open_, cursor);
    if start < 0 then NoTag
    else
      var tagEnd := Find(text, ">", start);
      if tagEnd < 0 then NotClosed(start)
      else
        var bodyEnd := Find(text, close_, tagEnd + 1);
        if bodyEnd < 0 then NotClosed(start) else Skip(start, tagEnd, bodyEnd)
  }

  /** The parts of `text` from `cursor` on that lie outside every body between an `open_` tag and
      the next `close_` tag. */
  function Outside(text: string, open_: string, close_: string, cursor: nat): seq<string>
    requires cursor <= |text|
    decreases |text| - cursor
  {
    match NextTurn(text, open_, close_, cursor)
    case NoTag => [text[cursor..]]
    case NotClosed(start) => [text[cursor..start], text[start..]]
    case Skip(start, tagEnd, bodyEnd) =>
      [text[cursor..start], text[start..tagEnd + 1]] + Outside(text, open_, close_, bodyEnd)
  }

  /** What the scanner collects. */
  function OutsideParts(text: string): seq<string> {
    Outside(text, OPEN, CLOSE, 0)
  }

  method ScanOutside(text: string, open_: string, close_: string) returns (outsideParts: seq<string>)
    ensures outsideParts == Outside(text, open_, close_, 0)
  {
    hide Find;
    outsideParts := [];
    var cursor := 0;
    ghost var all := Outside(text, open_, close_, 0);
    while true
      invariant cursor <= |text|
      invariant outsideParts + Outside(text, open_, close_, cursor) == all
      decreases |text| - cursor
    {
      ghost var before := outsideParts;
      var start := Find(text, open_, cursor);
      if start < 0 {
        outsideParts := outsideParts + [text[cursor..]];
        break;
      }
      outsideParts := outsideParts + [text[cursor..start]];
      var tagEnd := Find(text, ">", start);
      if tagEnd < 0 {
        outsideParts := outsideParts + [text[start..]];
        Append(before, text[cursor..start], text[start..], []);
        break;
      }
      var bodyEnd := Find(text, close_, tagEnd + 1);
      if bodyEnd < 0 {
        outsideParts := outsideParts + [text[start..]];
        Append(before, text[cursor..start], text[start..], []);
        break;
      }
      outsideParts := outsideParts + [text[start..tagEnd + 1]];
      Append(before, text[cursor..start], text[start..tagEnd + 1], Outside(text, open_, close_, bodyEnd));
      cursor := bodyEnd;
    }
  }

  lemma Append(before: seq<string>, p: string, q: string, rest: seq<string>)
    ensures before + [p] + [q] + rest == before + ([p, q] + rest)
    ensures before + [p] + [q] == before + [p, q]
  {
  }

  function Join(parts: seq<string>): string {
    if parts == [] then "" else parts[0] + Join(parts[1..])
  }

  /** The bodies the scan skips. */
  ghost function Bodies(text: string, open_: string, close_: string, cursor: nat): seq<string>
    requires cursor <= |text|
    decreases |text| - cursor
  {
    match NextTurn(text, open_, close_, cursor)
    case Skip(_, tagEnd, bodyEnd) => [text[tagEnd + 1..bodyEnd]] + Bodies(text, open_, close_, bodyEnd)
    case _ => []
  }

  /** Two outside parts (plain text, open tag) before each body, the rest at the end. */
  ghost function Weave(parts: seq<string>, bodies: seq<string>): string {
    if bodies == [] || |parts| < 2 then Join(parts)
    else parts[0] + parts[1] + bodies[0] + Weave(parts[2..], bodies[1..])
  }

  lemma SkippedBody(text: string, close_: string, from: nat, bodyEnd: int)
    requires from <= |text| && close_ != "" && bodyEnd == Find(text, close_, from) && bodyEnd >= 0
    ensures !Contains(text[from..bodyEnd], close_)
  {
    forall i ensures !OccursAt(text[from..bodyEnd], close_, i) {
      assert text == text[..from] + text[from..] && text[from..] == text[from..bodyEnd] + text[bodyEnd..];
      if 0 <= i <= bodyEnd - from - |close_| {
        OccursLeft(text[from..bodyEnd], text[bodyEnd..], close_, i);
        OccursShift(text[..from], text[from..], close_, from + i);
      }
    }
  }

  lemma JoinTwo(a: string, b: string)
    ensures Join([a]) == a && Join([a, b]) == a + b
  {
    assert [a][1..] == [] && [a, b][1..] == [b] && [b][1..] == [];
  }

  lemma Cut(text: string, a: nat, b: nat, c: nat, d: nat)
    requires a <= b <= c <= d <= |text|
    ensures text[a..b] + text[b..c] + text[c..d] + text[d..] == text[a..]
    ensures text[a..b] + text[b..] == text[a..]
  {
  }

  lemma WeaveStep(p: string, q: string, rest: seq<string>, body: string, bodies: seq<string>)
    ensures Weave([p, q] + rest, [body] + bodies) == p + q + body + Weave(rest, bodies)
  {
    assert ([p, q] + rest)[2..] == rest && ([body] + bodies)[1..] == bodies;
  }

  /** The scan loses and repeats nothing: woven back together with the skipped bodies, the outside
      parts are the text. */
  lemma {:induction false} ScanReassembles(text: string, open_: string, close_: string, cursor: nat)
    requires cursor <= |text|
    ensures Weave(Outside(text, open_, close_, cursor), Bodies(text, open_, close_, cursor)) == text[cursor..]
    decreases |text| - cursor
  {
    hide NextTurn, Find;
    match NextTurn(text, open_, close_, cursor) {
      case NoTag =>
        JoinTwo(text[cursor..], "");
      case NotClosed(start) =>
        JoinTwo(text[cursor..start], text[start..]);
        Cut(text, cursor, start, start, start);
      case Skip(start, tagEnd, bodyEnd) =>
        ScanReassembles(text, open_, close_, bodyEnd);
        WeaveStep(text[cursor..start], text[start..tagEnd + 1], Outside(text, open_, close_, bodyEnd),
                  text[tagEnd + 1..bodyEnd], Bodies(text, open_, close_, bodyEnd));
        Cut(text, cursor, start, tagEnd + 1, bodyEnd);
    }
  }

  /** A skipped body never holds a closing tag. */
  lemma {:induction false} BodiesHoldNoClose(text: string, open_: string, close_: string, cursor: nat)
    requires cursor <= |text| && close_ != ""
    ensures forall b | b in Bodies(text, open_, close_, cursor) :: !Contains(b, close_)
    decreases |text| - cursor
  {
    match NextTurn(text, open_, close_, cursor) {
      case Skip(_, tagEnd, bodyEnd) =>
        BodiesHoldNoClose(text, open_, close_, bodyEnd);
        SkippedBody(text, close_, tagEnd + 1, bodyEnd);
      case _ =>
    }
  }

  /** The parts between envelopes: every second one, the first one first. */
  ghost predicate PlainParts(parts: seq<string>, open_: string) {
    if parts == [] then true
    else !Contains(parts[0], open_) && (|parts| >= 2 ==> PlainParts(parts[2..], open_))
  }

  lemma BeforeFirst(text: string, w: string, from: nat, to: nat)
    requires from <= to <= |text| && w != "" && forall k | from <= k < to :: !OccursAt(text, w, k)
    ensures !Contains(text[from..to], w)
  {
    forall i ensures !OccursAt(text[from..to], w, i) {
      assert text == text[..from] + text[from..] && text[from..] == text[from..to] + text[to..];
      if 0 <= i <= to - from - |w| {
        OccursLeft(text[from..to], text[to..], w, i);
        OccursShift(text[..from], text[from..], w, from + i);
      }
    }
  }

  /** No envelope is overlooked: what the scan takes for plain text holds no open tag. */
  lemma {:induction false} PlainPartsHoldNoOpen(text: string, open_: string, close_: string, cursor: nat)
    requires cursor <= |text| && open_ != ""
    ensures PlainParts(Outside(text, open_, close_, cursor), open_)
    decreases |text| - cursor
  {
    var start := Find(text, open_, cursor);
    BeforeFirst(text, open_, cursor, if start < 0 then |text| else start);
    assert text[cursor..|text|] == text[cursor..];
    hide Find, Contains;
    match NextTurn(text, open_, close_, cursor) {
      case NoTag =>
      case NotClosed(s) => assert [text[cursor..s], text[s..]][2..] == [];
      case Skip(s, tagEnd, bodyEnd) =>
        PlainPartsHoldNoOpen(text, open_, close_, bodyEnd);
        var rest := Outside(text, open_, close_, bodyEnd);
        assert ([text[cursor..s], text[s..tagEnd + 1]] + rest)[2..] == rest;
    }
  }

  // ---------- escaping ----------

  function Entity(c: char): string {
    match c
    case '&' => "&amp;"
    case '<' => "&lt;"
    case '>' => "&gt;"
    case '"' => "&quot;"
    case '\'' => "&#x27;"
    case _ => [c]
  }

  function EscapeChars(s: string): string {
    if s == "" then "" else Entity(s[0]) + EscapeChars(s[1..])
  }

  lemma {:induction false} ReplaceCharConcat(a: string, b: string, c: char, w: string)
    ensures ReplaceAll(a + b, [c], w) == ReplaceAll(a, [c], w) + ReplaceAll(b, [c], w)
  {
    if a == "" {
      assert a + b == b;
    } else {
      assert (a + b)[1..] == a[1..] + b;
      ReplaceCharConcat(a[1..], b, c, w);
    }
  }

  lemma {:induction false} ReplaceCharAbsent(s: string, c: char, w: string)
    requires c !in s
    ensures ReplaceAll(s, [c], w) == s
  {
    if s != "" {
      assert s[0] in s && s[..1] == [s[0]];
      ReplaceCharAbsent(s[1..], c, w);
    }
  }

  lemma HtmlEscapeConcat(a: string, b: string)
    ensures HtmlEscape(a + b) == HtmlEscape(a) + HtmlEscape(b)
  {
    var a1, b1 := ReplaceAll(a, "&", "&amp;"), ReplaceAll(b, "&", "&amp;");
    var a2, b2 := ReplaceAll(a1, "<", "&lt;"), ReplaceAll(b1, "<", "&lt;");
    var a3, b3 := ReplaceAll(a2, ">", "&gt;"), ReplaceAll(b2, ">", "&gt;");
    var a4, b4 := ReplaceAll(a3, "\"", "&quot;"), ReplaceAll(b3, "\"", "&quot;");
    ReplaceCharConcat(a, b, '&', "&amp;");
    ReplaceCharConcat(a1, b1, '<', "&lt;");
    ReplaceCharConcat(a2, b2, '>', "&gt;");
    ReplaceCharConcat(a3, b3, '"', "&quot;");
    ReplaceCharConcat(a4, b4, '\'', "&#x27;");
  }

  lemma ReplaceOneChar(x: char, c: char, w: string)
    ensures ReplaceAll([x], [c], w) == if x == c then w else [x]
  {
    assert ReplaceAll("", [c], w) == "";
    assert [x][..1] == [x] && [x][1..] == "";
  }

  predicate AttributeSafe(s: string) {
    '<' !in s && '>' !in s && '"' !in s && '\'' !in s
  }

  lemma EntitySafe(c: char)
    ensures AttributeSafe(Entity(c))
  {
  }

  lemma SafeUntouched(s: string)
    requires AttributeSafe(s)
    ensures ReplaceAll(s, "<", "&lt;") == s && ReplaceAll(s, ">", "&gt;") == s
    ensures ReplaceAll(s, "\"", "&quot;") == s && ReplaceAll(s, "'", "&#x27;") == s
  {
    ReplaceCharAbsent(s, '<', "&lt;");
    ReplaceCharAbsent(s, '>', "&gt;");
    ReplaceCharAbsent(s, '"', "&quot;");
    ReplaceCharAbsent(s, '\'', "&#x27;");
  }

  lemma HtmlEscapeChar(x: char)
    ensures HtmlEscape([x]) == Entity(x)
  {
    ReplaceOneChar(x, '&', "&amp;");
    ReplaceOneChar(x, '<', "&lt;");
    ReplaceOneChar(x, '>', "&gt;");
    ReplaceOneChar(x, '"', "&quot;");
    ReplaceOneChar(x, '\'', "&#x27;");
    EntitySafe(x);
    SafeUntouched(Entity(x));
  }

  /** The five replacements in a row act as one pass that maps every character to its entity. */
  lemma {:induction false} HtmlEscapeIsOnePass(s: string)
    ensures HtmlEscape(s) == EscapeChars(s)
  {
    if s == "" {
      assert ReplaceAll("", "&", "&amp;") == "";
    } else {
      HtmlEscapeConcat([s[0]], s[1..]);
      HtmlEscapeChar(s[0]);
      HtmlEscapeIsOnePass(s[1..]);
      assert [s[0]] + s[1..] == s;
    }
  }

  lemma {:induction false} EscapedIsSafe(s: string)
    ensures AttributeSafe(EscapeChars(s))
  {
    if s != "" {
      EscapedIsSafe(s[1..]);
      EntitySafe(s[0]);
    }
  }

  /** No entity is a prefix of another. */
  lemma EntityPrefixFree(c: char, d: char, p: string, q: string)
    requires Entity(c) + p == Entity(d) + q
    ensures c == d && p == q
  {
    var l, r := Entity(c) + p, Entity(d) + q;
    assert l[0] == Entity(c)[0] && r[0] == Entity(d)[0];
    assert |Entity(c)| > 1 ==> l[1] == Entity(c)[1] && l[2] == Entity(c)[2];
    assert |Entity(d)| > 1 ==> r[1] == Entity(d)[1] && r[2] == Entity(d)[2];
    assert c == d;
    assert l[|Entity(c)|..] == p && r[|Entity(c)|..] == q;
  }

  function Quoted(a: string, x: string): string { EscapeChars(a) + "\"" + x }

  lemma QuotedStep(a: string, x: string)
    ensures a != "" ==> Quoted(a, x) == Entity(a[0]) + Quoted(a[1..], x)
    ensures a == "" ==> Quoted(a, x) == "\"" + x
    ensures Quoted(a, x)[0] == '"' <==> a == ""
  {
  }

  /** An escaped attribute can be read back in only one way, whatever follows its closing quote. */
  lemma {:induction false} QuotedInjective(a: string, b: string, x: string, y: string)
    requires Quoted(a, x) == Quoted(b, y)
    ensures a == b && x == y
  {
    QuotedStep(a, x);
    QuotedStep(b, y);
    if a == "" {
      CancelPrefix("\"", x, y);
    } else {
      EntityPrefixFree(a[0], b[0], Quoted(a[1..], x), Quoted(b[1..], y));
      QuotedInjective(a[1..], b[1..], x, y);
      assert a == [a[0]] + a[1..] && b == [b[0]] + b[1..];
    }
  }

  lemma CancelPrefix(p: string, x: string, y: string)
    requires p + x == p + y
    ensures x == y
  {
    assert (p + x)[|p|..] == x && (p + y)[|p|..] == y;
  }

  // ---------- rewriting the closing tag ----------

  /** `<` occurs in a marker once, at its start. */
  predicate Marker(w: string) {
    |w| >= 2 && w[0] == '<' && forall k | 0 < k < |w| :: w[k] != '<'
  }

  lemma {:induction false} PrefixKept(s: string, u: string, w: string, r: string)
    requires Marker(w) && Marker(r) && '<' !in u
    requires u <= ReplaceAll(s, w, r)
    ensures u <= s
  {
    if u != "" && |s| >= |w| {
      assert ReplaceAll(s, w, r)[0] == u[0] && u[0] in u;
      assert s[..|w|] != w;
      PrefixKept(s[1..], u[1..], w, r);
    }
  }

  lemma ReplaceStep(s: string, w: string, r: string)
    requires Marker(w) && |s| >= |w|
    ensures w <= s ==> ReplaceAll(s, w, r) == r + ReplaceAll(s[|w|..], w, r)
    ensures !(w <= s) ==> ReplaceAll(s, w, r) == [s[0]] + ReplaceAll(s[1..], w, r)
  {
  }

  /** A marker is not created at the head of a copied character. */
  lemma HeadNotCreated(s: string, w: string, r: string, v: string)
    requires Marker(w) && Marker(r) && Marker(v) && s != "" && !(v <= s)
    ensures !(v <= [s[0]] + ReplaceAll(s[1..], w, r))
  {
    var rest := ReplaceAll(s[1..], w, r);
    if v[1..] <= rest {
      PrefixKept(s[1..], v[1..], w, r);
    }
    PrefixByHead(v, s[0], rest);
    PrefixByHead(v, s[0], s[1..]);
    assert s == [s[0]] + s[1..];
  }

  lemma PrefixByHead(v: string, c: char, rest: string)
    requires v != ""
    ensures v <= [c] + rest <==> v[0] == c && v[1..] <= rest
  {
    assert v == [v[0]] + v[1..];
    assert v <= [c] + rest ==> ([c] + rest)[..|v|][1..] == rest[..|v| - 1];
  }

  lemma {:induction false} MarkerGone(s: string, w: string, r: string, i: int)
    requires Marker(w) && Marker(r) && w[1] != r[1]
    ensures !OccursAt(ReplaceAll(s, w, r), w, i)
  {
    if |s| >= |w| {
      ReplaceStep(s, w, r);
      OccursChars(ReplaceAll(s, w, r), w, i);
      if w <= s {
        if i >= |r| {
          OccursShift(r, ReplaceAll(s[|w|..], w, r), w, i);
          MarkerGone(s[|w|..], w, r, i - |r|);
        }
      } else if i > 0 {
        OccursShift([s[0]], ReplaceAll(s[1..], w, r), w, i);
        MarkerGone(s[1..], w, r, i - 1);
      } else {
        HeadNotCreated(s, w, r, w);
      }
    }
  }

  lemma {:induction false} ReplaceUndone(s: string, w: string, r: string)
    requires Marker(w) && Marker(r) && w[1] != r[1] && |w| <= |r|
    requires forall i :: !OccursAt(s, r, i)
    ensures ReplaceAll(ReplaceAll(s, w, r), r, w) == s
  {
    if |s| >= |w| {
      var t := ReplaceAll(s, w, r);
      var n := if w <= s then |w| else 1;
      ReplaceStep(s, w, r);
      forall i ensures !OccursAt(s[n..], r, i) {
        assert s == s[..n] + s[n..];
        if i >= 0 {
          OccursShift(s[..n], s[n..], r, n + i);
        }
      }
      ReplaceUndone(s[n..], w, r);
      if w <= s {
        assert t[..|r|] == r && t[|r|..] == ReplaceAll(s[n..], w, r);
      } else {
        assert !(r <= s) by {
          assert r <= s ==> OccursAt(s, r, 0);
        }
        HeadNotCreated(s, w, r, r);
        assert t[1..] == ReplaceAll(s[1..], w, r);
      }
    }
  }

  lemma MarkerAtEndOnly(s: string, w: string, i: int)
    requires Marker(w) && forall k :: !OccursAt(s, w, k)
    ensures OccursAt(s + w, w, i) <==> i == |s|
  {
    if i + |w| <= |s| {
      OccursLeft(s, w, w, i);
    } else if i < |s| {
      OccursChars(s + w, w, i);
      assert (s + w)[i + (|s| - i)] == w[0];
    } else if i == |s| {
      assert (s + w)[i..i + |w|] == w;
    }
  }

  // ---------- theorems ----------

  predicate NoAngle(s: string) { '<' !in s && '>' !in s }

  lemma TagLiterals()
    ensures OPEN == "<" + OPEN[1..] && "\">" == "\"" + ">"
    ensures NoAngle(OPEN[1..]) && NoAngle(" url=\"") && NoAngle("\" sha256=\"") && NoAngle("\"")
  {
  }

  lemma TagParts(o: string, name: string, a: string, u: string, b: string, h: string, e: string, f: string)
    returns (inside: string)
    requires o == "<" + name && e == f + ">"
    requires NoAngle(name) && NoAngle(a) && NoAngle(u) && NoAngle(b) && NoAngle(h) && NoAngle(f)
    ensures o + a + u + b + h + e == "<" + inside + ">"
    ensures NoAngle(inside) && name <= inside
  {
    inside := name + a + u + b + h + f;
  }

  lemma TagInside(url: string, contentHash: string) returns (inside: string)
    ensures OpenTag(url, contentHash) == "<" + inside + ">"
    ensures NoAngle(inside) && OPEN[1..] <= inside
  {
    HtmlEscapeIsOnePass(url);
    HtmlEscapeIsOnePass(contentHash);
    EscapedIsSafe(url);
    EscapedIsSafe(contentHash);
    TagLiterals();
    inside := TagParts(OPEN, OPEN[1..], " url=\"", HtmlEscape(url), "\" sha256=\"", HtmlEscape(contentHash),
                       "\">", "\"");
  }

  lemma TagShape(url: string, contentHash: string)
    ensures var tag := OpenTag(url, contentHash);
            && OPEN <= tag && tag[|tag| - 1] == '>' && tag[1] == 'u'
            && forall k | 0 < k < |tag| - 1 :: tag[k] != '<' && tag[k] != '>'
  {
    var inside := TagInside(url, contentHash);
    var tag := OpenTag(url, contentHash);
    assert forall k | 0 < k < |tag| - 1 :: tag[k] == inside[k - 1] && inside[k - 1] in inside;
    assert OPEN == "<" + OPEN[1..];
  }

  /** Whatever the page contains, its envelope closes once, at the very end. */
  lemma ClosesOnceAtEnd(url: string, contentHash: string, body: string, i: int)
    ensures var w := WrapUntrusted(url, contentHash, body);
            OccursAt(w, CLOSE, i) <==> i == |w| - |CLOSE|
  {
    var tag, safe := OpenTag(url, contentHash), ReplaceAll(body, CLOSE, NEUTRAL);
    var w := WrapUntrusted(url, contentHash, body);
    assert w == tag + (safe + CLOSE);
    TagShape(url, contentHash);
    if i < |tag| {
      OccursChars(w, CLOSE, i);
    } else {
      OccursShift(tag, safe + CLOSE, CLOSE, i);
      forall k ensures !OccursAt(safe, CLOSE, k) {
        MarkerGone(body, CLOSE, NEUTRAL, k);
      }
      MarkerAtEndOnly(safe, CLOSE, i - |tag|);
    }
  }

  /** Putting the closing tags back recovers the body exactly when the body did not already hold
      the neutralised form. */
  lemma BodyRecoveredIff(body: string)
    ensures ReplaceAll(ReplaceAll(body, CLOSE, NEUTRAL), NEUTRAL, CLOSE) == body <==> !Contains(body, NEUTRAL)
  {
    var safe := ReplaceAll(body, CLOSE, NEUTRAL);
    if !Contains(body, NEUTRAL) {
      ReplaceUndone(body, CLOSE, NEUTRAL);
    } else {
      var i :| OccursAt(body, NEUTRAL, i);
      MarkerGone(safe, NEUTRAL, CLOSE, i);
    }
  }

  lemma FindIs(text: string, w: string, start: nat, i: int)
    requires start <= i && OccursAt(text, w, i)
    requires forall k | start <= k < i :: !OccursAt(text, w, k)
    ensures Find(text, w, start) == i
  {
  }

  lemma TagEndFound(tag: string, rest: string)
    requires tag != "" && tag[|tag| - 1] == '>' && forall k | 0 <= k < |tag| - 1 :: tag[k] != '>'
    ensures Find(tag + rest, ">", 0) == |tag| - 1
  {
    var w := tag + rest;
    forall k | 0 <= k < |tag| ensures OccursAt(w, ">", k) <==> k == |tag| - 1 {
      assert w[k..k + 1] == [tag[k]];
    }
    FindIs(w, ">", 0, |tag| - 1);
  }

  lemma OtherMarkerAbsent(text: string, w: string, v: string, end: nat)
    requires Marker(w) && Marker(v) && v[1] != w[1] && end <= |text| && text[end..] == w
    ensures Find(text, v, end) == -1
  {
    forall k | end <= k ensures !OccursAt(text, v, k) {
      assert forall j | end <= j < |text| :: text[j] == w[j - end];
      OccursChars(text, v, k);
    }
  }

  lemma WrappedTags(url: string, contentHash: string, body: string)
    ensures var tag, w := OpenTag(url, contentHash), WrapUntrusted(url, contentHash, body);
            var end := |w| - |CLOSE|;
            && 1 <= |tag| <= end && w[..|tag|] == tag && w[end..] == CLOSE
            && Find(w, OPEN, 0) == 0 && Find(w, ">", 0) == |tag| - 1
            && Find(w, CLOSE, |tag|) == end && Find(w, OPEN, end) == -1
  {
    hide Find, OpenTag, ReplaceAll;
    var tag, w := OpenTag(url, contentHash), WrapUntrusted(url, contentHash, body);
    var end := |w| - |CLOSE|;
    var rest := ReplaceAll(body, CLOSE, NEUTRAL) + CLOSE;
    TagShape(url, contentHash);
    assert w == tag + rest && w[end..] == CLOSE;
    assert w[0..|OPEN|] == OPEN;
    FindIs(w, OPEN, 0, 0);
    TagEndFound(tag, rest);
    CloseFound(url, contentHash, body);
    OtherMarkerAbsent(w, CLOSE, OPEN, end);
  }

  lemma CloseFound(url: string, contentHash: string, body: string)
    ensures var w := WrapUntrusted(url, contentHash, body);
            forall from: nat | from <= |w| - |CLOSE| :: Find(w, CLOSE, from) == |w| - |CLOSE|
  {
    hide Find, OpenTag, ReplaceAll, WrapUntrusted, OccursAt;
    var w := WrapUntrusted(url, contentHash, body);
    var end := |w| - |CLOSE|;
    forall k ensures OccursAt(w, CLOSE, k) <==> k == end {
      ClosesOnceAtEnd(url, contentHash, body, k);
    }
    forall from: nat | from <= end ensures Find(w, CLOSE, from) == end {
      FindIs(w, CLOSE, from, end);
    }
  }

  lemma OneEnvelope(text: string, open_: string, close_: string, tagEnd: nat, end: nat)
    requires tagEnd < end <= |text|
    requires Find(text, open_, 0) == 0 && Find(text, ">", 0) == tagEnd
    requires Find(text, close_, tagEnd + 1) == end && Find(text, open_, end) == -1
    ensures Outside(text, open_, close_, 0) == ["", text[..tagEnd + 1], text[end..]]
  {
    assert Outside(text, open_, close_, end) == [text[end..]];
    assert text[0..0] == "" && text[0..tagEnd + 1] == text[..tagEnd + 1];
  }

  /** What the scanner finds outside a wrapped page is the open tag and the close tag, and nothing
      of the page, even when the page itself contains open tags. */
  lemma OutsideOfWrapped(url: string, contentHash: string, body: string)
    ensures OutsideParts(WrapUntrusted(url, contentHash, body)) == ["", OpenTag(url, contentHash), CLOSE]
    ensures Find(WrapUntrusted(url, contentHash, body), OPEN, 0) == 0
  {
    hide Find, WrapUntrusted, OpenTag;
    WrappedTags(url, contentHash, body);
    var tag, w := OpenTag(url, contentHash), WrapUntrusted(url, contentHash, body);
    OneEnvelope(w, OPEN, CLOSE, |tag| - 1, |w| - |CLOSE|);
  }

  lemma Flat(o: string, a: string, u: string, b: string, h: string, e: string, s: string, d: string)
    ensures (o + a + u + b + h + e) + s + d == o + a + (u + (b + (h + (e + s + d))))
  {
    assert (o + a + u + b + h + e) + s + d == o + a + u + b + h + (e + s + d);
    assert o + a + u + b + h + (e + s + d) == o + a + (u + (b + (h + (e + s + d))));
  }

  lemma QuotedTag(o: string, a: string, url: string, b: string, c: string, hash: string,
                  e: string, s: string, d: string)
    requires b == "\"" + c && e == "\"" + ">"
    ensures (o + a + EscapeChars(url) + b + EscapeChars(hash) + e) + s + d
            == o + a + Quoted(url, c + Quoted(hash, ">" + s + d))
  {
    var u, h, t := EscapeChars(url), EscapeChars(hash), ">" + s + d;
    Flat(o, a, u, b, h, e, s, d);
    assert e + s + d == "\"" + t;
    assert h + ("\"" + t) == Quoted(hash, t);
    var x := Quoted(hash, t);
    assert b + x == "\"" + (c + x);
    assert u + ("\"" + (c + x)) == Quoted(url, c + x);
  }

  lemma QuoteLiterals()
    ensures "\" sha256=\"" == "\"" + " sha256=\"" && "\">" == "\"" + ">"
  {
  }

  lemma WrapIsQuoted(url: string, contentHash: string, body: string)
    ensures var rest := ">" + ReplaceAll(body, CLOSE, NEUTRAL) + CLOSE;
            WrapUntrusted(url, contentHash, body)
            == OPEN + " url=\"" + Quoted(url, " sha256=\"" + Quoted(contentHash, rest))
  {
    HtmlEscapeIsOnePass(url);
    HtmlEscapeIsOnePass(contentHash);
    QuoteLiterals();
    QuotedTag(OPEN, " url=\"", url, "\" sha256=\"", " sha256=\"", contentHash, "\">",
              ReplaceAll(body, CLOSE, NEUTRAL), CLOSE);
  }

  /** A wrapped page says which URL and hash it was wrapped with: different ones never print the
      same text. */
  lemma WrapDeterminesSource(url: string, contentHash: string, body: string,
                             url': string, contentHash': string, body': string)
    requires WrapUntrusted(url, contentHash, body) == WrapUntrusted(url', contentHash', body')
    ensures url == url' && contentHash == contentHash'
    ensures ReplaceAll(body, CLOSE, NEUTRAL) == ReplaceAll(body', CLOSE, NEUTRAL)
  {
    WrapIsQuoted(url, contentHash, body);
    WrapIsQuoted(url', contentHash', body');
    var s, s' := ReplaceAll(body, CLOSE, NEUTRAL), ReplaceAll(body', CLOSE, NEUTRAL);
    var x, x' := ">" + s + CLOSE, ">" + s' + CLOSE;
    var y, y' := Quoted(contentHash, x), Quoted(contentHash', x');
    var a, b := OPEN + " url=\"", " sha256=\"";
    CancelPrefix(a, Quoted(url, b + y), Quoted(url', b + y'));
    QuotedInjective(url, url', b + y, b + y');
    CancelPrefix(b, y, y');
    QuotedInjective(contentHash, contentHash', x, x');
    assert x[1..|x| - |CLOSE|] == s && x'[1..|x'| - |CLOSE|] == s';
  }
}
