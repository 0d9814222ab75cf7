/** Matching text for citations: NFC, white-space runs collapsed to one blank, lower-cased, with
    a table from every normalised character back to the original characters it came from. */
module Normalize {
  import opened Strings
  import opened Utf8
  import opened Wrappers

  datatype Tag = Equal | Delete | Insert | Replace

  /** One entry of `SequenceMatcher.get_opcodes()`. */
  datatype Opcode = Opcode(tag: Tag, i1: nat, i2: nat, j1: nat, j2: nat)

  type Span = (nat, nat)

  predicate WellShaped(a: string, b: string, op: Opcode) {
    && op.i1 <= op.i2 <= |a| && op.j1 <= op.j2 <= |b|
    && match op.tag
       case Equal => a[op.i1..op.i2] == b[op.j1..op.j2]
       case Delete => op.j1 == op.j2
       case Insert => op.i1 == op.i2
       case Replace => op.i1 < op.i2
  }

  /** The opcodes tile `a[..i]` and `b[..j]`, in order and without gaps. */
  predicate Tiles(a: string, b: string, ops: seq<Opcode>, i: nat, j: nat) {
    if ops == [] then i == 0 && j == 0
    else
      var op := ops[|ops| - 1];
      op.i2 == i && op.j2 == j && WellShaped(a, b, op) && Tiles(a, b, ops[..|ops| - 1], op.i1, op.j1)
  }

  /** The Unicode tables and the diff, which this model leaves open. */
  datatype Unicode = Unicode(lower: char -> string, nfc: string -> string, opcodes: (string, string) -> seq<Opcode>)
  {
    /** What is assumed of them: lower-casing never deletes a character, NFC never empties a text,
        a substring of NFC text is NFC text (UAX #15), the diff tiles both texts and finds nothing
        but equality between a text and itself. */
    ghost predicate Valid() {
      && (forall c :: lower(c) != "")
      && (forall s :: KeepsEmpty(s))
      && (forall s, i, j | 0 <= i <= j <= |s| :: KeepsSlice(s, i, j))
      && (forall a, b :: DiffTiles(a, b))
      && (forall a :: DiffOfSame(a))
    }

    ghost predicate KeepsEmpty(s: string) { nfc(s) == "" <==> s == "" }

    ghost predicate KeepsSlice(s: string, i: nat, j: nat)
      requires i <= j <= |s|
    {
      nfc(s) == s ==> nfc(s[i..j]) == s[i..j]
    }

    ghost predicate DiffTiles(a: string, b: string) { Tiles(a, b, opcodes(a, b), |a|, |b|) }

    ghost predicate DiffOfSame(a: string) {
      forall k | 0 <= k < |opcodes(a, a)| :: opcodes(a, a)[k].tag == Equal
    }

    ghost predicate LowersToOneChar(s: string) {
      forall c | c in s :: |lower(c)| == 1
    }
  }

  /** The plainest diff: equal texts, or one replacement, insertion or deletion. */
  function PlainDiff(a: string, b: string): seq<Opcode> {
    if a == b then if a == "" then [] else [Opcode(Equal, 0, |a|, 0, |b|)]
    else [Opcode(if a == "" then Insert else if b == "" then Delete else Replace, 0, |a|, 0, |b|)]
  }

  lemma PlainDiffTiles(a: string, b: string)
    ensures Tiles(a, b, PlainDiff(a, b), |a|, |b|)
  {
    var ops := PlainDiff(a, b);
    if ops != [] {
      assert ops[..0] == [] && Tiles(a, b, [], 0, 0);
      assert a[0..|a|] == a && b[0..|b|] == b;
    }
  }

  /** The assumptions can be met, with every text in NFC and lower case. */
  lemma AssumptionsAreConsistent()
    ensures exists u: Unicode :: u.Valid() && forall s :: u.nfc(s) == s && u.LowersToOneChar(s)
  {
    var u := Unicode((c: char) => [c], (s: string) => s, (a: string, b: string) => PlainDiff(a, b));
    forall a, b ensures u.DiffTiles(a, b) {
      PlainDiffTiles(a, b);
    }
    assert u.Valid();
    assert forall s :: u.nfc(s) == s && u.LowersToOneChar(s);
  }

  datatype NormalizedText = NormalizedText(text: string, spans: seq<Span>, byteOffsets: seq<nat>)

  // ---------- specification functions ----------

  function OpSpans(original: string, op: Opcode): seq<Span> {
    var count := if op.j1 <= op.j2 then op.j2 - op.j1 else 0;
    match op.tag
    case Equal => seq(count, o requires 0 <= o => (op.i1 + o, op.i1 + o + 1))
    case Delete => []
    case _ =>
      var end := if op.i1 == op.i2 && op.i1 < |original| then op.i1 + 1 else op.i2;
      seq(count, _ => (op.i1, end))
  }

  function NfcSpans(original: string, ops: seq<Opcode>): seq<Span> {
    if ops == [] then [] else NfcSpans(original, ops[..|ops| - 1]) + OpSpans(original, ops[|ops| - 1])
  }

  function ByteOffsets(text: string): seq<nat> {
    seq(|text| + 1, i requires 0 <= i <= |text| => |Encode(text[..i])|)
  }

  datatype Rewritten = Rewritten(chars: string, spans: seq<Span>) {
    predicate Aligned() { |chars| == |spans| }
    predicate EndsInBlank() { chars != "" && chars[|chars| - 1] == ' ' }
  }

  function Rewrite(lower: char -> string, out: Rewritten, c: char, span: Span): (r: Rewritten)
    requires out.Aligned()
    ensures r.Aligned()
  {
    if IsSpace(c) then
      if out.EndsInBlank() then
        out.(spans := out.spans[|out.spans| - 1 := (out.spans[|out.spans| - 1].0, span.1)])
      else Rewritten(out.chars + " ", out.spans + [span])
    else Rewritten(out.chars + lower(c), out.spans + seq(|lower(c)|, _ => span))
  }

  function RewriteAll(lower: char -> string, s: string, spans: seq<Span>): (r: Rewritten)
    requires |s| == |spans|
    ensures r.Aligned()
  {
    if s == "" then Rewritten("", [])
    else
      var n := |s| - 1;
      Rewrite(lower, RewriteAll(lower, s[..n], spans[..n]), s[n], spans[n])
  }

  function Spans(u: Unicode, text: string): seq<Span> {
    NfcSpans(text, u.opcodes(text, u.nfc(text)))
  }

  ghost function Normalized(u: Unicode, text: string): NormalizedText
    requires u.Valid()
  {
    OneSpanPerNfcChar(u, text);
    var r := RewriteAll(u.lower, u.nfc(text), Spans(u, text));
    NormalizedText(r.chars, r.spans, ByteOffsets(text))
  }

  // ---------- the code's loops ----------

  method BuildByteOffsets(text: string) returns (offsets: seq<nat>)
    ensures offsets == ByteOffsets(text)
  {
    offsets := [0];
    var total := 0;
    for i := 0 to |text|
      invariant total == |Encode(text[..i])|
      invariant |offsets| == i + 1 && forall k :: 0 <= k <= i ==> offsets[k] == |Encode(text[..k])|
    {
      EncodeConcat(text[..i], [text[i]]);
      assert text[..i + 1] == text[..i] + [text[i]];
      total := total + |EncodeChar(text[i])|;
      offsets := offsets + [total];
    }
  }

  /** One turn of the opcode loop. */
  method AppendOpSpans(original: string, op: Opcode, before: seq<Span>) returns (spans: seq<Span>)
    ensures spans == before + OpSpans(original, op)
  {
    spans := before;
    match op.tag {
      case Equal =>
        var offset := 0;
        while offset < op.j2 - op.j1
          invariant 0 <= offset <= |OpSpans(original, op)| && spans == before + OpSpans(original, op)[..offset]
        {
          spans := spans + [(op.i1 + offset, op.i1 + offset + 1)];
          offset := offset + 1;
        }
      case Delete =>
      case _ =>
        var start, end := op.i1, op.i2;
        if start == end && start < |original| {
          end := start + 1;
        }
        var j := op.j1;
        while j < op.j2
          invariant op.j1 <= j && j - op.j1 <= |OpSpans(original, op)|
          invariant spans == before + OpSpans(original, op)[..j - op.j1]
        {
          spans := spans + [(start, end)];
          j := j + 1;
        }
    }
  }

  method BuildNfcSpans(original: string, normalized: string, ops: seq<Opcode>) returns (spans: seq<Span>, ok: bool)
    ensures spans == NfcSpans(original, ops)
    ensures ok <==> |spans| == |normalized|
  {
    spans := [];
    for k := 0 to |ops|
      invariant spans == NfcSpans(original, ops[..k])
    {
      assert ops[..k + 1][..k] == ops[..k];
      spans := AppendOpSpans(original, ops[k], spans);
    }
    assert ops[..|ops|] == ops;
    ok := |spans| == |normalized|;
  }

  /** The rewriting loop of `normalize_for_match`. */
  method RewriteChars(lower: char -> string, nfcText: string, nfcSpans: seq<Span>)
    returns (chars: string, spans: seq<Span>)
    requires |nfcText| == |nfcSpans|
    ensures Rewritten(chars, spans) == RewriteAll(lower, nfcText, nfcSpans)
  {
    chars, spans := "", [];
    for k := 0 to |nfcText|
      invariant |chars| == |spans|
      invariant Rewritten(chars, spans) == RewriteAll(lower, nfcText[..k], nfcSpans[..k])
    {
      var c, span := nfcText[k], nfcSpans[k];
      ghost var r := Rewritten(chars, spans);
      RewriteAllSnoc(lower, nfcText, nfcSpans, k);
      if IsSpace(c) {
        if chars != "" && chars[|chars| - 1] == ' ' {
          spans := spans[|spans| - 1 := (spans[|spans| - 1].0, span.1)];
        } else {
          chars, spans := chars + " ", spans + [span];
        }
      } else {
        var lowered := lower(c);
        for m := 0 to |lowered|
          invariant chars == r.chars + lowered[..m] && spans == r.spans + seq(m, _ => span)
        {
          chars, spans := chars + [lowered[m]], spans + [span];
        }
      }
    }
    assert nfcText[..|nfcText|] == nfcText && nfcSpans[..|nfcText|] == nfcSpans;
  }

  method NormalizeForMatch(u: Unicode, text: string) returns (n: NormalizedText)
    requires u.Valid()
    ensures n == Normalized(u, text)
  {
    var nfcText := u.nfc(text);
    var nfcSpans, ok := BuildNfcSpans(text, nfcText, u.opcodes(text, nfcText));
    OneSpanPerNfcChar(u, text);
    assert ok;
    var byteOffsets := BuildByteOffsets(text);
    var chars, spans := RewriteChars(u.lower, nfcText, nfcSpans);
    n := NormalizedText(chars, spans, byteOffsets);
  }

  // ---------- soundness of the tables, for every text and every diff ----------

  lemma {:induction false} SpanPerNfcChar(a: string, b: string, ops: seq<Opcode>, i: nat, j: nat)
    requires Tiles(a, b, ops, i, j)
    ensures |NfcSpans(a, ops)| == j
  {
    if ops != [] {
      var op := ops[|ops| - 1];
      SpanPerNfcChar(a, b, ops[..|ops| - 1], op.i1, op.j1);
    }
  }

  lemma OneSpanPerNfcChar(u: Unicode, text: string)
    requires u.Valid()
    ensures |Spans(u, text)| == |u.nfc(text)|
  {
    assert u.DiffTiles(text, u.nfc(text));
    SpanPerNfcChar(text, u.nfc(text), u.opcodes(text, u.nfc(text)), |text|, |u.nfc(text)|);
  }

  ghost predicate Covers(spans: seq<Span>, x: nat) {
    exists k | 0 <= k < |spans| :: spans[k].0 <= x < spans[k].1
  }

  /** What one opcode's spans point at: equal characters at themselves, a replacement at the whole of
      what it replaces, an insertion at the character it comes before. */
  lemma OpSpansCover(a: string, b: string, op: Opcode)
    requires WellShaped(a, b, op) && op.j1 < op.j2
    ensures var spans := OpSpans(a, op);
            && |spans| == op.j2 - op.j1
            && (forall x | op.i1 <= x < op.i2 :: Covers(spans, x))
            && (op.i1 < op.i2 ==> forall k | 0 <= k < |spans| :: op.i1 <= spans[k].0 < spans[k].1 <= op.i2)
            && (op.tag == Equal ==>
                  forall k | 0 <= k < |spans| :: spans[k].1 == spans[k].0 + 1 && a[spans[k].0] == b[op.j1 + k])
            && (op.tag == Replace ==> forall k | 0 <= k < |spans| :: spans[k] == (op.i1, op.i2))
            && (op.tag == Insert ==>
                  forall k | 0 <= k < |spans| :: spans[k].0 == op.i1 && (spans[k].1 == op.i1 + 1 || op.i1 == |a|))
  {
    var spans := OpSpans(a, op);
    if op.tag == Equal {
      assert |a[op.i1..op.i2]| == |b[op.j1..op.j2]|;
      forall k | 0 <= k < |spans| ensures a[spans[k].0] == b[op.j1 + k] {
        assert a[op.i1..op.i2][k] == b[op.j1..op.j2][k];
      }
      forall x | op.i1 <= x < op.i2 ensures Covers(spans, x) {
        assert spans[x - op.i1] == (x, x + 1);
      }
    } else if op.tag == Replace {
      forall x | op.i1 <= x < op.i2 ensures Covers(spans, x) {
        assert spans[0] == (op.i1, op.i2);
      }
    }
  }

  lemma CoversMore(spans: seq<Span>, more: seq<Span>, x: nat)
    ensures Covers(spans, x) || Covers(more, x) ==> Covers(spans + more, x)
  {
    if k :| 0 <= k < |spans| && spans[k].0 <= x < spans[k].1 {
      assert (spans + more)[k] == spans[k];
    }
    if k :| 0 <= k < |more| && more[k].0 <= x < more[k].1 {
      assert (spans + more)[|spans| + k] == more[k];
    }
  }

  /** No original character is out of reach of the table but those that the diff deletes. */
  lemma {:induction false} NfcSpansCover(a: string, b: string, ops: seq<Opcode>, i: nat, j: nat, x: nat)
    requires Tiles(a, b, ops, i, j) && x < i
    ensures Covers(NfcSpans(a, ops), x) || exists op | op in ops :: op.j1 == op.j2 && op.i1 <= x < op.i2
  {
    hide OpSpans, Covers;
    var op := ops[|ops| - 1];
    var before := ops[..|ops| - 1];
    CoversMore(NfcSpans(a, before), OpSpans(a, op), x);
    if x < op.i1 {
      NfcSpansCover(a, b, before, op.i1, op.j1, x);
      assert forall o | o in before :: o in ops;
    } else if op.j1 < op.j2 {
      OpSpansCover(a, b, op);
    } else {
      assert op in ops;
    }
  }

  predicate InOrder(p: Span, q: Span) { p.0 <= q.0 && p.1 <= q.1 }

  /** Spans lie in a text of `n` characters, and their starts and their ends never decrease. */
  predicate Monotone(spans: seq<Span>, n: nat) {
    && (forall k | 0 <= k < |spans| :: spans[k].0 <= spans[k].1 <= n)
    && (forall k, l | 0 <= k <= l < |spans| :: InOrder(spans[k], spans[l]))
  }

  lemma OpSpansMonotone(a: string, b: string, op: Opcode)
    requires WellShaped(a, b, op)
    ensures Monotone(OpSpans(a, op), |a|)
    ensures forall k | 0 <= k < |OpSpans(a, op)| ::
              var p := OpSpans(a, op)[k];
              op.i1 <= p.0 <= op.i2 && p.1 <= op.i2 + 1 && (op.i1 < p.1 || p.1 == |a|)
  {
    assert op.tag == Equal ==> |a[op.i1..op.i2]| == |b[op.j1..op.j2]|;
  }

  lemma MonotoneAppend(first: seq<Span>, rest: seq<Span>, i: nat, n: nat)
    requires Monotone(first, n) && Monotone(rest, n)
    requires forall k | 0 <= k < |first| :: first[k].0 <= i && first[k].1 <= i + 1
    requires forall k | 0 <= k < |rest| :: i <= rest[k].0 && (i < rest[k].1 || rest[k].1 == n)
    ensures Monotone(first + rest, n)
  {
    var all := first + rest;
    forall k, l | 0 <= k <= l < |all| ensures InOrder(all[k], all[l]) {
      if k < |first| <= l {
        assert all[k] == first[k] && all[l] == rest[l - |first|];
        assert first[k].1 <= n;
      }
    }
  }

  lemma {:induction false} NfcSpansMonotone(a: string, b: string, ops: seq<Opcode>, i: nat, j: nat)
    requires Tiles(a, b, ops, i, j)
    ensures Monotone(NfcSpans(a, ops), |a|)
    ensures forall k | 0 <= k < |NfcSpans(a, ops)| ::
              var p := NfcSpans(a, ops)[k]; p.0 <= i && p.1 <= i + 1 && (0 < p.1 || p.1 == |a|)
  {
    if ops != [] {
      var op := ops[|ops| - 1];
      NfcSpansMonotone(a, b, ops[..|ops| - 1], op.i1, op.j1);
      OpSpansMonotone(a, b, op);
      MonotoneAppend(NfcSpans(a, ops[..|ops| - 1]), OpSpans(a, op), op.i1, |a|);
    }
  }

  lemma {:induction false} RewriteAllMonotone(lower: char -> string, s: string, spans: seq<Span>, n: nat)
    requires |s| == |spans| && Monotone(spans, n)
    ensures Monotone(RewriteAll(lower, s, spans).spans, n)
    ensures s != "" ==> forall p | p in RewriteAll(lower, s, spans).spans :: InOrder(p, spans[|s| - 1])
  {
    hide Rewrite;
    if s != "" {
      var m := |s| - 1;
      RewriteAllMonotone(lower, s[..m], spans[..m], n);
      var before := RewriteAll(lower, s[..m], spans[..m]);
      forall p | p in before.spans ensures InOrder(p, spans[m]) {
        assert m > 0;
        assert InOrder(p, spans[m - 1]) && InOrder(spans[m - 1], spans[m]);
      }
      RewriteMonotone(lower, before, s[m], spans[m], n);
    }
  }

  lemma RewriteMonotone(lower: char -> string, out: Rewritten, c: char, span: Span, n: nat)
    requires out.Aligned() && Monotone(out.spans, n) && span.0 <= span.1 <= n
    requires forall p | p in out.spans :: InOrder(p, span)
    ensures Monotone(Rewrite(lower, out, c, span).spans, n)
    ensures forall p | p in Rewrite(lower, out, c, span).spans :: InOrder(p, span)
  {
    hide IsSpace;
    assert forall k | 0 <= k < |out.spans| :: out.spans[k] in out.spans;
  }

  /** Up to any character, the spans reach from the first character's start to the last one's end: a
      white-space run's one span grows with it. */
  lemma {:induction false} RewriteAllReaches(lower: char -> string, s: string, spans: seq<Span>)
    requires |s| == |spans| && s != "" && forall c :: lower(c) != ""
    ensures var r := RewriteAll(lower, s, spans).spans;
            r != [] && r[0].0 == spans[0].0 && r[|r| - 1].1 == spans[|s| - 1].1
  {
    var m := |s| - 1;
    if m == 0 {
      assert RewriteAll(lower, s[..0], spans[..0]) == Rewritten("", []);
    } else {
      RewriteAllReaches(lower, s[..m], spans[..m]);
    }
  }

  lemma TablesSound(u: Unicode, text: string)
    requires u.Valid()
    ensures var n := Normalized(u, text);
            |n.spans| == |n.text| && Monotone(n.spans, |text|) && |n.byteOffsets| == |text| + 1
  {
    var ops := u.opcodes(text, u.nfc(text));
    assert u.DiffTiles(text, u.nfc(text)) && u.KeepsEmpty(text);
    SpanPerNfcChar(text, u.nfc(text), ops, |text|, |u.nfc(text)|);
    NfcSpansMonotone(text, u.nfc(text), ops, |text|, |u.nfc(text)|);
    RewriteAllMonotone(u.lower, u.nfc(text), Spans(u, text), |text|);
  }

  // ---------- byte slices ----------

  lemma EncodedSlice(text: string, i: nat, j: nat)
    requires i <= j <= |text|
    ensures |Encode(text[..i])| <= |Encode(text[..j])| <= |Encode(text)|
    ensures Encode(text)[|Encode(text[..i])|..|Encode(text[..j])|] == Encode(text[i..j])
    ensures i < j ==> |Encode(text[..i])| < |Encode(text[..j])|
  {
    EncodeConcat(text[..i], text[i..j]);
    EncodeConcat(text[..j], text[j..]);
    assert text[..i] + text[i..j] == text[..j] && text[..j] + text[j..] == text;
    assert i < j ==> text[i..j] != "" && |Encode(text[i..j])| > 0;
  }

  predicate Sliceable(n: NormalizedText, start: int, end: int) {
    && 0 <= start < end <= |n.spans|
    && n.spans[start].0 < |n.byteOffsets| && n.spans[end - 1].1 < |n.byteOffsets|
  }

  function SliceToByteOffsets(n: NormalizedText, start: int, end: int): (nat, nat)
    requires Sliceable(n, start, end)
  {
    (n.byteOffsets[n.spans[start].0], n.byteOffsets[n.spans[end - 1].1])
  }

  /** Both byte offsets of a match fall on character boundaries of the original text, in order and
      in range, so the slice decodes, to exactly the characters from the first span to the last;
      the end offset is at least 1, as the citation record demands. */
  lemma SliceDecodes(u: Unicode, text: string, start: int, end: int)
    requires u.Valid()
    requires 0 <= start < end <= |Normalized(u, text).text|
    ensures Sliceable(Normalized(u, text), start, end)
    ensures var n := Normalized(u, text);
            var (from, to) := (n.spans[start].0, n.spans[end - 1].1);
            var (bs, be) := SliceToByteOffsets(n, start, end);
            && from <= to <= |text|
            && bs == |Encode(text[..from])| && be == |Encode(text[..to])|
            && bs <= be <= |Encode(text)| && 1 <= be
            && Decode(Encode(text)[bs..be]) == Some(text[from..to])
  {
    TablesSound(u, text);
    var n := Normalized(u, text);
    var from, to := n.spans[start].0, n.spans[end - 1].1;
    assert InOrder(n.spans[start], n.spans[end - 1]);
    EncodedSlice(text, from, to);
    DecodeEncode(text[from..to]);
    EndsPositive(u, text);
    EncodedSlice(text, 0, to);
  }

  lemma {:induction false} RewriteAllEnds(lower: char -> string, s: string, spans: seq<Span>)
    requires |s| == |spans| && forall p | p in spans :: 0 < p.1
    ensures forall p | p in RewriteAll(lower, s, spans).spans :: 0 < p.1
  {
    if s != "" {
      RewriteAllEnds(lower, s[..|s| - 1], spans[..|s| - 1]);
    }
  }

  lemma EndsPositive(u: Unicode, text: string)
    requires u.Valid()
    ensures forall p | p in Normalized(u, text).spans :: 0 < p.1
  {
    var ops := u.opcodes(text, u.nfc(text));
    assert u.DiffTiles(text, u.nfc(text)) && u.KeepsEmpty(text);
    SpanPerNfcChar(text, u.nfc(text), ops, |text|, |u.nfc(text)|);
    NfcSpansMonotone(text, u.nfc(text), ops, |text|, |u.nfc(text)|);
    if text != "" {
      RewriteAllEnds(u.lower, u.nfc(text), Spans(u, text));
    }
  }

  // ---------- on NFC text, slicing commutes with normalising ----------

  function Absorb(lower: char -> string, p: string, c: char): string {
    if !IsSpace(c) then p + lower(c)
    else if p != "" && p[|p| - 1] == ' ' then p
    else p + " "
  }

  /** The normalised characters alone. */
  function Squash(lower: char -> string, s: string): string {
    if s == "" then "" else Absorb(lower, Squash(lower, s[..|s| - 1]), s[|s| - 1])
  }

  lemma {:induction false} RewriteAllChars(lower: char -> string, s: string, spans: seq<Span>)
    requires |s| == |spans|
    ensures RewriteAll(lower, s, spans).chars == Squash(lower, s)
  {
    if s != "" {
      RewriteAllChars(lower, s[..|s| - 1], spans[..|s| - 1]);
    }
  }

  /** Cutting `s` at `i` does not split a white-space run. */
  predicate CleanCut(lower: char -> string, s: string, i: nat)
    requires i <= |s|
  {
    var p := Squash(lower, s[..i]);
    i == |s| || !IsSpace(s[i]) || p == "" || p[|p| - 1] != ' '
  }

  lemma {:induction false} SquashConcat(lower: char -> string, s: string, i: nat, j: nat)
    requires forall c :: lower(c) != ""
    requires i <= j <= |s| && CleanCut(lower, s, i)
    ensures Squash(lower, s[..j]) == Squash(lower, s[..i]) + Squash(lower, s[i..j])
    ensures i < j ==> Squash(lower, s[i..j]) != ""
  {
    if i < j {
      SquashConcat(lower, s, i, j - 1);
      SquashSnoc(lower, s, 0, j);
      SquashSnoc(lower, s, i, j);
      assert s[0..j] == s[..j] && s[0..j - 1] == s[..j - 1];
      AbsorbSuffix(lower, Squash(lower, s[..i]), Squash(lower, s[i..j - 1]), s[j - 1]);
    }
  }

  /** A text without white space is lower-cased, character by character. */
  function Lowered(lower: char -> string, s: string): string {
    if s == "" then "" else Lowered(lower, s[..|s| - 1]) + lower(s[|s| - 1])
  }

  lemma {:induction false} SquashOfWord(lower: char -> string, s: string)
    requires forall c | c in s :: !IsSpace(c)
    ensures Squash(lower, s) == Lowered(lower, s)
  {
    if s != "" {
      assert s[|s| - 1] in s && forall c | c in s[..|s| - 1] :: c in s;
      SquashOfWord(lower, s[..|s| - 1]);
    }
  }

  /** A white-space run becomes one blank. */
  lemma {:induction false} SquashOfSpace(lower: char -> string, s: string)
    requires s != "" && forall c | c in s :: IsSpace(c)
    ensures Squash(lower, s) == " "
  {
    assert s[|s| - 1] in s && forall c | c in s[..|s| - 1] :: c in s;
    if |s| > 1 {
      SquashOfSpace(lower, s[..|s| - 1]);
    } else {
      assert Squash(lower, s[..0]) == "";
    }
  }

  /** What normalising does to NFC text: words are lower-cased, and each white-space run between them becomes
      one blank. */
  lemma NormalizedWords(u: Unicode, word: string, gap: string, rest: string)
    requires u.Valid() && u.nfc(word + gap + rest) == word + gap + rest
    requires (forall c | c in word :: !IsSpace(c)) && (forall c | c in gap :: IsSpace(c)) && gap != ""
    requires rest != "" && !IsSpace(rest[0])
    requires forall c | c in word :: ' ' !in u.lower(c)
    ensures u.nfc(rest) == rest
    ensures Normalized(u, word + gap + rest).text == Lowered(u.lower, word) + " " + Normalized(u, rest).text
  {
    var s := word + gap + rest;
    var i, j := |word|, |word| + |gap|;
    assert u.KeepsSlice(s, j, |s|) && s[j..|s|] == rest;
    NormalizedNfcText(u, s);
    NormalizedNfcText(u, rest);
    assert s[..i] == word && s[i..j] == gap && s[..|s|] == s;
    SquashOfWord(u.lower, word);
    LoweredHasNoBlank(u.lower, word);
    SquashOfSpace(u.lower, gap);
    hide Squash, Lowered, IsSpace, Normalized, Unicode.Valid;
    SquashConcat(u.lower, s, i, j) by {
      assert u.Valid();
    }
    SquashConcat(u.lower, s, j, |s|);
  }

  lemma {:induction false} LoweredHasNoBlank(lower: char -> string, s: string)
    requires forall c | c in s :: ' ' !in lower(c)
    ensures ' ' !in Lowered(lower, s)
  {
    if s != "" {
      assert s[|s| - 1] in s && forall c | c in s[..|s| - 1] :: c in s;
      LoweredHasNoBlank(lower, s[..|s| - 1]);
    }
  }

  lemma SquashSnoc(lower: char -> string, s: string, i: nat, j: nat)
    requires i < j <= |s|
    ensures Squash(lower, s[i..j]) == Absorb(lower, Squash(lower, s[i..j - 1]), s[j - 1])
  {
    assert s[i..j][..j - 1 - i] == s[i..j - 1];
  }

  /** Reading a character acts on the end of the text only, unless a white-space run is split. */
  lemma AbsorbSuffix(lower: char -> string, p: string, q: string, c: char)
    requires q == "" && IsSpace(c) ==> p == "" || p[|p| - 1] != ' '
    ensures Absorb(lower, p + q, c) == p + Absorb(lower, q, c)
  {
  }

  lemma {:induction false} SquashPrefix(lower: char -> string, s: string, i: nat)
    requires i <= |s|
    ensures Squash(lower, s[..i]) <= Squash(lower, s)
  {
    if i < |s| {
      SquashPrefix(lower, s[..|s| - 1], i);
      assert s[..|s| - 1][..i] == s[..i];
    } else {
      assert s[..i] == s;
    }
  }

  function Identity(n: nat): seq<Span> {
    seq(n, k requires 0 <= k => (k, k + 1))
  }

  /** Span `p` delimits the source of normalised character `k`: the cut before it is clean and
      normalising up to its two ends brackets `k`, tightly if lower-casing never expands. */
  predicate Anchors(lower: char -> string, s: string, p: Span, k: nat, tight: bool) {
    && p.0 < p.1 <= |s| && CleanCut(lower, s, p.0)
    && |Squash(lower, s[..p.0])| <= k < |Squash(lower, s[..p.1])|
    && (tight ==> |Squash(lower, s[..p.0])| == k && |Squash(lower, s[..p.1])| == k + 1)
  }

  /** Reading a blank after a blank widens the last span and its anchor. */
  lemma AnchorWidened(lower: char -> string, s: string, r: Rewritten, m: nat, tight: bool)
    requires m < |s| && forall c :: lower(c) != ""
    requires r.Aligned() && r.chars == Squash(lower, s[..m])
    requires IsSpace(s[m]) && r.EndsInBlank()
    requires Anchors(lower, s, r.spans[|r.spans| - 1], |r.spans| - 1, tight) && r.spans[|r.spans| - 1].1 <= m
    ensures Anchors(lower, s, (r.spans[|r.spans| - 1].0, m + 1), |r.spans| - 1, tight)
  {
    assert s[..m + 1][..m] == s[..m];
    assert Squash(lower, s[..m + 1]) == r.chars;
  }

  /** Every other character opens spans of its own. */
  lemma AnchorOpened(lower: char -> string, s: string, r: Rewritten, m: nat, k: nat, tight: bool)
    requires m < |s| && forall c :: lower(c) != ""
    requires tight ==> |lower(s[m])| == 1
    requires r.chars == Squash(lower, s[..m])
    requires !(IsSpace(s[m]) && r.EndsInBlank())
    requires |r.chars| <= k < |Absorb(lower, r.chars, s[m])|
    ensures Anchors(lower, s, (m, m + 1), k, tight)
  {
    assert s[..m + 1][..m] == s[..m];
    assert Squash(lower, s[..m + 1]) == Absorb(lower, r.chars, s[m]);
  }

  lemma RewriteAllSnoc(lower: char -> string, s: string, spans: seq<Span>, m: nat)
    requires |s| == |spans| && m < |s|
    ensures RewriteAll(lower, s[..m + 1], spans[..m + 1])
            == Rewrite(lower, RewriteAll(lower, s[..m], spans[..m]), s[m], spans[m])
  {
    assert s[..m + 1][..m] == s[..m] && spans[..m + 1][..m] == spans[..m];
  }

  predicate AllAnchored(lower: char -> string, s: string, spans: seq<Span>, n: nat, tight: bool) {
    forall k | 0 <= k < |spans| :: Anchors(lower, s, spans[k], k, tight) && spans[k].1 <= n
  }

  lemma AnchorStep(lower: char -> string, s: string, r: Rewritten, m: nat, tight: bool)
    requires m < |s| && forall c :: lower(c) != ""
    requires tight ==> |lower(s[m])| == 1
    requires r.Aligned() && r.chars == Squash(lower, s[..m]) && AllAnchored(lower, s, r.spans, m, tight)
    ensures AllAnchored(lower, s, Rewrite(lower, r, s[m], (m, m + 1)).spans, m + 1, tight)
  {
    var t := Rewrite(lower, r, s[m], (m, m + 1));
    if IsSpace(s[m]) && r.EndsInBlank() {
      AnchorWidened(lower, s, r, m, tight);
    } else {
      forall k | |r.spans| <= k < |t.spans| ensures Anchors(lower, s, t.spans[k], k, tight) {
        AnchorOpened(lower, s, r, m, k, tight);
      }
    }
  }

  lemma {:induction false} SpansAnchor(lower: char -> string, s: string, n: nat, tight: bool)
    requires n <= |s| && forall c :: lower(c) != ""
    requires tight ==> forall c | c in s :: |lower(c)| == 1
    ensures AllAnchored(lower, s, RewriteAll(lower, s[..n], Identity(|s|)[..n]).spans, n, tight)
  {
    if n > 0 {
      var m := n - 1;
      var ids := Identity(|s|);
      SpansAnchor(lower, s, m, tight);
      RewriteAllSnoc(lower, s, ids, m);
      RewriteAllChars(lower, s[..m], ids[..m]);
      AnchorStep(lower, s, RewriteAll(lower, s[..m], ids[..m]), m, tight);
    }
  }

  /** Spans that leave no gap: each starts where the one before starts or ends, the first at 0, and the last
      ends at `n`. */
  predicate Gapless(spans: seq<Span>, n: nat) {
    && (spans == [] ==> n == 0)
    && (spans != [] ==> spans[0].0 == 0 && spans[|spans| - 1].1 == n)
    && forall k | 0 <= k < |spans| - 1 :: spans[k + 1].0 == spans[k].0 || spans[k + 1].0 == spans[k].1
  }

  /** In NFC text the table covers the text up to any character, without gaps. */
  lemma {:induction false} SpansAreGapless(lower: char -> string, s: string, n: nat)
    requires n <= |s| && forall c :: lower(c) != ""
    ensures Gapless(RewriteAll(lower, s[..n], Identity(|s|)[..n]).spans, n)
  {
    if n > 0 {
      var m, ids := n - 1, Identity(|s|);
      SpansAreGapless(lower, s, m);
      RewriteAllSnoc(lower, s, ids, m);
      var r := RewriteAll(lower, s[..m], ids[..m]);
      var t := Rewrite(lower, r, s[m], ids[m]);
      assert r.spans == [] ==> m == 0;
      forall k | 0 <= k < |t.spans| - 1
        ensures t.spans[k + 1].0 == t.spans[k].0 || t.spans[k + 1].0 == t.spans[k].1
      {
        if k < |r.spans| - 1 {
          assert r.spans[k + 1].0 == r.spans[k].0 || r.spans[k + 1].0 == r.spans[k].1;
        }
      }
    }
  }

  lemma EqualOpSpans(a: string, op: Opcode)
    requires WellShaped(a, a, op) && op.tag == Equal && op.i1 == op.j1
    ensures op.i2 == op.j2 && OpSpans(a, op) == Identity(|a|)[op.i1..op.i2]
  {
    assert |a[op.i1..op.i2]| == |a[op.j1..op.j2]|;
  }

  lemma {:induction false} IdenticalSpans(a: string, ops: seq<Opcode>, i: nat, j: nat)
    requires Tiles(a, a, ops, i, j) && i <= |a|
    requires forall k | 0 <= k < |ops| :: ops[k].tag == Equal
    ensures i == j && NfcSpans(a, ops) == Identity(|a|)[..i]
  {
    if ops != [] {
      var op := ops[|ops| - 1];
      IdenticalSpans(a, ops[..|ops| - 1], op.i1, op.j1);
      EqualOpSpans(a, op);
      hide OpSpans;
      var ids := Identity(|a|);
      assert ids[..op.i1] + ids[op.i1..op.i2] == ids[..op.i2];
    }
  }

  lemma NormalizedNfcText(u: Unicode, text: string)
    requires u.Valid() && u.nfc(text) == text
    ensures Normalized(u, text).text == Squash(u.lower, text)
    ensures Normalized(u, text).spans == RewriteAll(u.lower, text, Identity(|text|)).spans
  {
    assert u.DiffTiles(text, text) && u.DiffOfSame(text);
    IdenticalSpans(text, u.opcodes(text, text), |text|, |text|);
    assert Spans(u, text) == Identity(|text|) by {
      assert Identity(|text|)[..|text|] == Identity(|text|);
    }
    RewriteAllChars(u.lower, text, Identity(|text|));
  }

  lemma InMiddle(head: string, slice: string, whole: string, start: nat, end: nat)
    requires head + slice <= whole && |head| <= start <= end <= |head| + |slice|
    ensures OccursAt(slice, whole[start..end], start - |head|)
    ensures start == |head| && end == |head| + |slice| ==> slice == whole[start..end]
  {
    assert slice == whole[|head|..|head| + |slice|];
  }

  /** The grounding theorem. In an NFC document, the original characters a match is carried back
      to normalise to a text that contains the match, and to the match itself when lower-casing
      gives one character for each. */
  lemma SliceNormalizesToMatch(u: Unicode, text: string, start: int, end: int)
    requires u.Valid() && u.nfc(text) == text
    requires 0 <= start < end <= |Normalized(u, text).text|
    ensures var n := Normalized(u, text);
            && |n.spans| == |n.text|
            && var (from, to) := (n.spans[start].0, n.spans[end - 1].1);
            && from <= to <= |text|
            && Contains(Normalized(u, text[from..to]).text, n.text[start..end])
            && (u.LowersToOneChar(text) ==> Normalized(u, text[from..to]).text == n.text[start..end])
  {
    TablesSound(u, text);
    var n := Normalized(u, text);
    var from, to := n.spans[start].0, n.spans[end - 1].1;
    assert InOrder(n.spans[start], n.spans[end - 1]);
    NormalizedNfcText(u, text);
    assert u.KeepsSlice(text, from, to);
    NormalizedNfcText(u, text[from..to]);
    var tight := if u.LowersToOneChar(text) then true else false;
    SpansAnchor(u.lower, text, |text|, tight);
    assert text[..|text|] == text && Identity(|text|)[..|text|] == Identity(|text|);
    assert Anchors(u.lower, text, n.spans[start], start, tight);
    assert Anchors(u.lower, text, n.spans[end - 1], end - 1, tight);
    var lower := u.lower;
    var head, slice := Squash(lower, text[..from]), Squash(lower, text[from..to]);
    SquashConcat(lower, text, from, to);
    SquashPrefix(lower, text, to);
    InMiddle(head, slice, n.text, start, end);
  }
}
