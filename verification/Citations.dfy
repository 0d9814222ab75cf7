/** The citation validator: every raw citation is either bound to a byte span of a fetched document
    or rejected for the first check it fails. */
module Citations {
  import opened Strings
  import opened Utf8
  import opened Wrappers
  import opened Normalize
  import opened Sorting
  import Envelope

  const MIN_QUOTE_LENGTH := 12
  const MAX_QUOTE_LENGTH := 800

  datatype RawCitation = RawCitation(url: string, contentHash: string, quote: string, claimId: string)
  datatype Citation = Citation(url: string, contentHash: string, byteStart: nat, byteEnd: nat,
                               quote: string, claimId: string)
  datatype Reason =
    UnknownDocument | QuoteTooShort | QuoteTooLong | QuoteNotFound | ClaimUnmatched | EnvelopeViolation
  datatype Rejection = Rejection(raw: RawCitation, reason: Reason)
  datatype Document = Document(markdown: string, envelopedMarkdown: string)

  /** A dictionary of documents by content hash, in insertion order. */
  type Documents = seq<(string, Document)>

  ghost predicate DistinctKeys(documents: Documents) {
    forall i, j | 0 <= i < j < |documents| :: documents[i].0 != documents[j].0
  }

  /** The insertion index of a key, or the number of entries. */
  function IndexOf(documents: Documents, contentHash: string): (i: nat)
    ensures i <= |documents|
    ensures i < |documents| ==> documents[i].0 == contentHash
    ensures forall k | 0 <= k < i :: documents[k].0 != contentHash
  {
    if documents == [] || documents[0].0 == contentHash then 0 else 1 + IndexOf(documents[1..], contentHash)
  }

  datatype Row = Row(position: nat, order: nat, length: nat, citation: Citation)

  predicate RowLe(x: Row, y: Row) {
    || x.position < y.position
    || (x.position == y.position && (x.order < y.order || (x.order == y.order && x.length <= y.length)))
  }

  // ---------- claims ----------

  function Markers(claimId: string): (ms: seq<string>)
    ensures forall m | m in ms :: m != ""
  {
    ["[^" + claimId + "]", "<cite id=\"" + claimId + "\">", "<cite id='" + claimId + "'>"]
  }

  predicate ClaimExists(answer: string, claimId: string) {
    exists m | m in Markers(claimId) :: Find(answer, m, 0) >= 0
  }

  function Least(answer: string, markers: seq<string>): (p: nat)
    requires forall i | 0 <= i < |markers| :: markers[i] != ""
    ensures p <= |answer|
    ensures forall m, k | m in markers && OccursAt(answer, m, k) :: p <= k
    ensures p < |answer| ==> exists m | m in markers :: OccursAt(answer, m, p)
  {
    if markers == [] then |answer|
    else
      var p, rest := Find(answer, markers[0], 0), Least(answer, markers[1..]);
      if 0 <= p < rest then p else rest
  }

  /** Where the claim is first marked in the answer, whichever form the marker has. */
  function ClaimPosition(answer: string, claimId: string): nat {
    Least(answer, Markers(claimId))
  }

  lemma ClaimPositionIsFirst(answer: string, claimId: string)
    ensures ClaimExists(answer, claimId) <==> ClaimPosition(answer, claimId) < |answer|
    ensures ClaimExists(answer, claimId) ==>
              && (exists m | m in Markers(claimId) :: OccursAt(answer, m, ClaimPosition(answer, claimId)))
              && forall m, k | m in Markers(claimId) && OccursAt(answer, m, k) :: ClaimPosition(answer, claimId) <= k
  {
    if ClaimExists(answer, claimId) {
      var m :| m in Markers(claimId) && Find(answer, m, 0) >= 0;
      assert OccursAt(answer, m, Find(answer, m, 0));
    }
  }

  // ---------- specification ----------

  ghost predicate HasOutsideMatch(u: Unicode, document: Document, normalizedQuote: string)
    requires u.Valid()
  {
    var text := document.envelopedMarkdown;
    && text != "" && Find(text, Envelope.OPEN, 0) >= 0
    && Find(Normalized(u, Envelope.Join(Envelope.OutsideParts(text))).text, normalizedQuote, 0) >= 0
  }

  datatype Verdict = Accepted(row: Row) | Refused(rejection: Rejection)

  lemma NormalizedNonempty(u: Unicode, text: string)
    requires u.Valid() && text != ""
    ensures Normalized(u, text).text != ""
  {
    var nfc := u.nfc(text);
    OneSpanPerNfcChar(u, text);
    assert u.KeepsEmpty(text);
    RewriteAllChars(u.lower, nfc, Spans(u, text));
    SquashConcat(u.lower, nfc, 0, |nfc|);
    assert nfc[0..|nfc|] == nfc;
  }

  ghost function Bind(u: Unicode, answer: string, item: RawCitation, order: nat, markdown: string, start: nat): Row
    requires u.Valid() && item.quote != ""
    requires OccursAt(Normalized(u, markdown).text, Normalized(u, item.quote).text, start)
  {
    var n, end := Normalized(u, markdown), start + |Normalized(u, item.quote).text|;
    NormalizedNonempty(u, item.quote);
    SliceDecodes(u, markdown, start, end);
    var (bs, be) := SliceToByteOffsets(n, start, end);
    var quote := Decode(Encode(markdown)[bs..be]).value;
    Row(ClaimPosition(answer, item.claimId), order, |quote|,
        Citation(item.url, item.contentHash, bs, be, quote, item.claimId))
  }

  ghost function Judge(u: Unicode, answer: string, documents: Documents, item: RawCitation): Verdict
    requires u.Valid()
  {
    var order := IndexOf(documents, item.contentHash);
    if order == |documents| then Refused(Rejection(item, UnknownDocument))
    else if |item.quote| < MIN_QUOTE_LENGTH then Refused(Rejection(item, QuoteTooShort))
    else if |item.quote| > MAX_QUOTE_LENGTH then Refused(Rejection(item, QuoteTooLong))
    else
      var document, q := documents[order].1, Normalized(u, item.quote).text;
      var start := Find(Normalized(u, document.markdown).text, q, 0);
      if start < 0 then Refused(Rejection(item, QuoteNotFound))
      else if !ClaimExists(answer, item.claimId) then Refused(Rejection(item, ClaimUnmatched))
      else if HasOutsideMatch(u, document, q) then Refused(Rejection(item, EnvelopeViolation))
      else Accepted(Bind(u, answer, item, order, document.markdown, start))
  }

  ghost function Verdicts(u: Unicode, answer: string, documents: Documents, raw: seq<RawCitation>): seq<Verdict>
    requires u.Valid()
  {
    if raw == [] then []
    else Verdicts(u, answer, documents, raw[..|raw| - 1]) + [Judge(u, answer, documents, raw[|raw| - 1])]
  }

  ghost function Rows(vs: seq<Verdict>): seq<Row> {
    if vs == [] then []
    else
      var rest, v := Rows(vs[..|vs| - 1]), vs[|vs| - 1];
      if v.Accepted? then rest + [v.row] else rest
  }

  ghost function Rejections(vs: seq<Verdict>): seq<Rejection> {
    if vs == [] then []
    else
      var rest, v := Rejections(vs[..|vs| - 1]), vs[|vs| - 1];
      if v.Refused? then rest + [v.rejection] else rest
  }

  function CitationsOf(rows: seq<Row>): seq<Citation> {
    seq(|rows|, i requires 0 <= i < |rows| => rows[i].citation)
  }

  /** The accepted citations, in input order. */
  ghost function AcceptedOf(vs: seq<Verdict>): seq<Citation> {
    if vs == [] then []
    else
      var rest, v := AcceptedOf(vs[..|vs| - 1]), vs[|vs| - 1];
      if v.Accepted? then rest + [v.row.citation] else rest
  }

  /** Where a citation's claim is first marked, the place of its document, and its length. */
  function OrderKey(answer: string, documents: Documents, c: Citation): (nat, nat, nat) {
    (ClaimPosition(answer, c.claimId), IndexOf(documents, c.contentHash), |c.quote|)
  }

  predicate LexLess(k: (nat, nat, nat), l: (nat, nat, nat)) {
    k.0 < l.0 || (k.0 == l.0 && (k.1 < l.1 || (k.1 == l.1 && k.2 < l.2)))
  }

  ghost predicate InReadingOrder(answer: string, documents: Documents, cs: seq<Citation>) {
    forall i, j | 0 <= i < j < |cs| ::
      !LexLess(OrderKey(answer, documents, cs[j]), OrderKey(answer, documents, cs[i]))
  }

  /** The citations with one key, in the order of `cs`. */
  ghost function WithKey(answer: string, documents: Documents, cs: seq<Citation>, k: (nat, nat, nat)): seq<Citation> {
    if cs == [] then []
    else
      (if OrderKey(answer, documents, cs[0]) == k then [cs[0]] else []) + WithKey(answer, documents, cs[1..], k)
  }

  // ---------- the code ----------

  method HasOutsideEnvelopeMatch(u: Unicode, document: Document, normalizedQuote: string) returns (found: bool)
    requires u.Valid()
    ensures found <==> HasOutsideMatch(u, document, normalizedQuote)
  {
    var text := document.envelopedMarkdown;
    if text == "" || Find(text, Envelope.OPEN, 0) < 0 {
      return false;
    }
    var outsideParts := Envelope.ScanOutside(text, Envelope.OPEN, Envelope.CLOSE);
    var outside := NormalizeForMatch(u, Envelope.Join(outsideParts));
    found := Find(outside.text, normalizedQuote, 0) >= 0;
  }

  method ValidateOne(u: Unicode, answer: string, documents: Documents, item: RawCitation) returns (v: Verdict)
    requires u.Valid()
    ensures v == Judge(u, answer, documents, item)
  {
    hide Find, Normalized, HasOutsideMatch, ClaimExists, Decode, Encode, Unicode.Valid;
    var order := IndexOf(documents, item.contentHash);
    if order == |documents| {
      return Refused(Rejection(item, UnknownDocument));
    }
    var document := documents[order].1;
    var quoteLength := |item.quote|;
    if quoteLength < MIN_QUOTE_LENGTH {
      return Refused(Rejection(item, QuoteTooShort));
    }
    if quoteLength > MAX_QUOTE_LENGTH {
      return Refused(Rejection(item, QuoteTooLong));
    }
    var normalizedQuote := NormalizeForMatch(u, item.quote);
    var normalizedDocument := NormalizeForMatch(u, document.markdown);
    var matchStart := Find(normalizedDocument.text, normalizedQuote.text, 0);
    if matchStart < 0 {
      return Refused(Rejection(item, QuoteNotFound));
    }
    var matchEnd := matchStart + |normalizedQuote.text|;
    NormalizedNonempty(u, item.quote);
    SliceDecodes(u, document.markdown, matchStart, matchEnd);
    var (byteStart, byteEnd) := SliceToByteOffsets(normalizedDocument, matchStart, matchEnd);
    if !ClaimExists(answer, item.claimId) {
      return Refused(Rejection(item, ClaimUnmatched));
    }
    var outside := HasOutsideEnvelopeMatch(u, document, normalizedQuote.text);
    if outside {
      return Refused(Rejection(item, EnvelopeViolation));
    }
    var quote := Decode(Encode(document.markdown)[byteStart..byteEnd]).value;
    var citation := Citation(item.url, item.contentHash, byteStart, byteEnd, quote, item.claimId);
    v := Accepted(Row(ClaimPosition(answer, item.claimId), order, |citation.quote|, citation));
  }

  method ValidateCitations(u: Unicode, answer: string, raw: seq<RawCitation>, documents: Documents)
    returns (valid: seq<Citation>, rejected: seq<Rejection>)
    requires u.Valid() && DistinctKeys(documents)
    ensures var vs := Verdicts(u, answer, documents, raw);
            && valid == CitationsOf(StableSort(Rows(vs), RowLe))
            && rejected == Rejections(vs)
            && InReadingOrder(answer, documents, valid)
            && forall k :: WithKey(answer, documents, valid, k) == WithKey(answer, documents, AcceptedOf(vs), k)
  {
    hide Judge, StableSort, Unicode.Valid, InReadingOrder, WithKey, AcceptedOf;
    var validRows: seq<Row> := [];
    rejected := [];
    for i := 0 to |raw|
      invariant validRows == Rows(Verdicts(u, answer, documents, raw[..i]))
      invariant rejected == Rejections(Verdicts(u, answer, documents, raw[..i]))
    {
      var v := ValidateOne(u, answer, documents, raw[i]);
      assert raw[..i + 1][..i] == raw[..i];
      ghost var before := Verdicts(u, answer, documents, raw[..i]);
      assert (before + [v])[..|before|] == before;
      match v {
        case Accepted(row) => validRows := validRows + [row];
        case Refused(rejection) => rejected := rejected + [rejection];
      }
    }
    assert raw[..|raw|] == raw;
    valid := CitationsOf(StableSort(validRows, RowLe));
    ValidOrder(u, answer, documents, raw);
  }

  // ---------- theorems ----------

  lemma {:induction false} VerdictAt(u: Unicode, answer: string, documents: Documents, raw: seq<RawCitation>, i: nat)
    requires u.Valid() && i < |raw|
    ensures |Verdicts(u, answer, documents, raw)| == |raw|
    ensures Verdicts(u, answer, documents, raw)[i] == Judge(u, answer, documents, raw[i])
  {
    hide Judge;
    var n := |raw| - 1;
    if n > 0 {
      VerdictAt(u, answer, documents, raw[..n], if i < n then i else 0);
    }
  }

  /** How many of the first `i` verdicts are refusals. */
  ghost function RefusedBefore(vs: seq<Verdict>, i: nat): (n: nat)
    requires i <= |vs|
    ensures n <= i
  {
    if i == 0 then 0 else RefusedBefore(vs, i - 1) + if vs[i - 1].Refused? then 1 else 0
  }

  /** Nothing is lost, duplicated or reordered by the split: verdict `i` is found among the
      rejections or among the accepted rows, behind exactly those of its kind that precede it. */
  lemma {:induction false} SplitKeepsAll(vs: seq<Verdict>, i: nat)
    requires i < |vs|
    ensures |Rows(vs)| + |Rejections(vs)| == |vs| && |Rejections(vs)| == RefusedBefore(vs, |vs|)
    ensures var k := RefusedBefore(vs, i);
            if vs[i].Refused? then k < |Rejections(vs)| && Rejections(vs)[k] == vs[i].rejection
            else i - k < |Rows(vs)| && Rows(vs)[i - k] == vs[i].row
  {
    var n := |vs| - 1;
    RefusedBeforePrefix(vs, n, i);
    RefusedBeforePrefix(vs, n, n);
    if n > 0 {
      SplitKeepsAll(vs[..n], if i < n then i else 0);
    }
  }

  lemma {:induction false} RefusedBeforePrefix(vs: seq<Verdict>, n: nat, i: nat)
    requires i <= n <= |vs|
    ensures RefusedBefore(vs[..n], i) == RefusedBefore(vs, i)
  {
    if i > 0 {
      RefusedBeforePrefix(vs, n, i - 1);
    }
  }

  lemma RowLeTotal()
    ensures TotalPreorder(RowLe)
  {
  }

  /** The row's sort key is that of its citation. */
  ghost predicate RowFits(answer: string, documents: Documents, row: Row) {
    (row.position, row.order, row.length) == OrderKey(answer, documents, row.citation)
  }

  lemma JudgedRowFits(u: Unicode, answer: string, documents: Documents, item: RawCitation)
    requires u.Valid()
    ensures var v := Judge(u, answer, documents, item); v.Accepted? ==> RowFits(answer, documents, v.row)
  {
    hide Find, Normalized, HasOutsideMatch, ClaimExists, ClaimPosition, IndexOf, Decode, Encode, Unicode.Valid;
  }

  lemma {:induction false} RowsFit(u: Unicode, answer: string, documents: Documents, raw: seq<RawCitation>)
    requires u.Valid()
    ensures var vs := Verdicts(u, answer, documents, raw);
            && (forall row | row in Rows(vs) :: RowFits(answer, documents, row))
            && CitationsOf(Rows(vs)) == AcceptedOf(vs)
  {
    hide Judge, RowFits, Unicode.Valid;
    if raw != [] {
      var n := |raw| - 1;
      RowsFit(u, answer, documents, raw[..n]);
      JudgedRowFits(u, answer, documents, raw[n]);
      var before, v := Verdicts(u, answer, documents, raw[..n]), Judge(u, answer, documents, raw[n]);
      assert (before + [v])[..|before|] == before;
    }
  }

  lemma {:induction false} ClassWithKey(answer: string, documents: Documents, rows: seq<Row>, x: Row)
    requires forall row | row in rows :: RowFits(answer, documents, row)
    ensures CitationsOf(Class(rows, x, RowLe))
            == WithKey(answer, documents, CitationsOf(rows), (x.position, x.order, x.length))
  {
    hide OrderKey;
    if rows != [] {
      var rest := rows[1..];
      ClassWithKey(answer, documents, rest, x);
      assert rows[0] in rows && forall row | row in rest :: row in rows;
      assert CitationsOf(rows)[1..] == CitationsOf(rest);
      assert Same(x, rows[0], RowLe)
        <==> OrderKey(answer, documents, rows[0].citation) == (x.position, x.order, x.length);
      assert CitationsOf([rows[0]] + Class(rest, x, RowLe)) == [rows[0].citation] + CitationsOf(Class(rest, x, RowLe));
      assert [] + Class(rest, x, RowLe) == Class(rest, x, RowLe);
    }
  }

  /** The accepted citations come out by where their claims are first marked, then by document, then by
      quote length, and those that agree in all three in the order they came in. */
  lemma ValidOrder(u: Unicode, answer: string, documents: Documents, raw: seq<RawCitation>)
    requires u.Valid()
    ensures var vs := Verdicts(u, answer, documents, raw);
            var valid := CitationsOf(StableSort(Rows(vs), RowLe));
            && InReadingOrder(answer, documents, valid)
            && forall k :: WithKey(answer, documents, valid, k) == WithKey(answer, documents, AcceptedOf(vs), k)
  {
    hide Verdicts, Rows, AcceptedOf, WithKey, OrderKey, StableSort, Class, Unicode.Valid;
    var vs := Verdicts(u, answer, documents, raw);
    var rows := Rows(vs);
    var out := StableSort(rows, RowLe);
    RowsFit(u, answer, documents, raw);
    RowLeTotal();
    StableSortProperties(rows, RowLe);
    forall row | row in out ensures RowFits(answer, documents, row) {
      assert row in multiset(out);
    }
    forall k ensures WithKey(answer, documents, CitationsOf(out), k) == WithKey(answer, documents, AcceptedOf(vs), k) {
      var x := Row(k.0, k.1, k.2, Citation("", "", 0, 0, "", ""));
      ClassWithKey(answer, documents, out, x);
      ClassWithKey(answer, documents, rows, x);
    }
    forall i, j | 0 <= i < j < |out|
      ensures !LexLess(OrderKey(answer, documents, out[j].citation), OrderKey(answer, documents, out[i].citation))
    {
      assert RowLe(out[i], out[j]) && RowFits(answer, documents, out[i]) && RowFits(answer, documents, out[j]);
    }
  }

  /** The checks in their fixed order. */
  ghost predicate Passes(u: Unicode, answer: string, documents: Documents, item: RawCitation, check: Reason)
    requires u.Valid()
  {
    var order := IndexOf(documents, item.contentHash);
    match check
    case UnknownDocument => exists d | d in documents :: d.0 == item.contentHash
    case QuoteTooShort => |item.quote| >= 12
    case QuoteTooLong => |item.quote| <= 800
    case QuoteNotFound =>
      order < |documents| ==>
        Contains(Normalized(u, documents[order].1.markdown).text, Normalized(u, item.quote).text)
    case ClaimUnmatched =>
      || Contains(answer, "[^" + item.claimId + "]")
      || Contains(answer, "<cite id=\"" + item.claimId + "\">")
      || Contains(answer, "<cite id='" + item.claimId + "'>")
    case EnvelopeViolation =>
      order < |documents| ==> !HasOutsideMatch(u, documents[order].1, Normalized(u, item.quote).text)
  }

  function Rank(r: Reason): nat {
    match r
    case UnknownDocument => 0
    case QuoteTooShort => 1
    case QuoteTooLong => 2
    case QuoteNotFound => 3
    case ClaimUnmatched => 4
    case EnvelopeViolation => 5
  }

  lemma ClaimExistsIff(answer: string, claimId: string)
    ensures ClaimExists(answer, claimId)
            <==> || Contains(answer, "[^" + claimId + "]")
                 || Contains(answer, "<cite id=\"" + claimId + "\">")
                 || Contains(answer, "<cite id='" + claimId + "'>")
  {
    var ms := Markers(claimId);
    assert ms[0] in ms && ms[1] in ms && ms[2] in ms;
    forall m ensures Find(answer, m, 0) >= 0 <==> Contains(answer, m) {
    }
  }

  /** A citation is accepted iff it passes all six checks, and is otherwise rejected, with its raw
      form, for the first check it fails. */
  lemma FirstFailingCheck(u: Unicode, answer: string, documents: Documents, item: RawCitation)
    requires u.Valid()
    ensures var v := Judge(u, answer, documents, item);
            && (v.Accepted? <==> forall c :: Passes(u, answer, documents, item, c))
            && (v.Refused? ==>
                  && v.rejection.raw == item && !Passes(u, answer, documents, item, v.rejection.reason)
                  && forall c | Rank(c) < Rank(v.rejection.reason) :: Passes(u, answer, documents, item, c))
  {
    hide Find, Normalized, HasOutsideMatch, ClaimExists, Bind, Unicode.Valid;
    var order := IndexOf(documents, item.contentHash);
    ClaimExistsIff(answer, item.claimId);
    if order < |documents| {
      assert documents[order] in documents;
    }
    var v := Judge(u, answer, documents, item);
    assert v.Refused? ==> !Passes(u, answer, documents, item, v.rejection.reason);
  }

  /** The citation quotes `text` between two character positions, its byte offsets are theirs, and,
      in an NFC document, the quote normalises to a text containing the normalised raw quote, or to
      exactly that when lower-casing gives one character for each. */
  ghost predicate Grounded(u: Unicode, text: string, rawQuote: string, c: Citation)
    requires u.Valid()
  {
    && (exists from, to | 0 <= from <= to <= |text| ::
          && c.quote == text[from..to] && c.byteStart == |Encode(text[..from])| && c.byteEnd == |Encode(text[..to])|)
    && c.byteStart <= c.byteEnd <= |Encode(text)| && 1 <= c.byteEnd
    && (u.nfc(text) == text ==>
          && Contains(Normalized(u, c.quote).text, Normalized(u, rawQuote).text)
          && (u.LowersToOneChar(text) ==> Normalized(u, c.quote).text == Normalized(u, rawQuote).text))
  }

  /** The match at `start` is carried back to `c`, and no match comes before it. */
  ghost predicate FirstMatch(n: NormalizedText, q: string, text: string, start: nat, c: Citation) {
    && q != "" && OccursAt(n.text, q, start) && (forall k | 0 <= k < start :: !OccursAt(n.text, q, k))
    && |n.spans| == |n.text|
    && var (from, to) := (n.spans[start].0, n.spans[start + |q| - 1].1);
       from <= to <= |text| && c.quote == text[from..to] && c.byteStart == |Encode(text[..from])|
  }

  lemma BoundQuoteIsGrounded(u: Unicode, answer: string, item: RawCitation, order: nat, text: string, start: nat)
    requires u.Valid() && item.quote != ""
    requires OccursAt(Normalized(u, text).text, Normalized(u, item.quote).text, start)
    ensures Grounded(u, text, item.quote, Bind(u, answer, item, order, text, start).citation)
  {
    hide Unicode.Valid, Unicode.LowersToOneChar, Decode, Encode, ClaimPosition, Contains;
    var n, q := Normalized(u, text), Normalized(u, item.quote).text;
    var end := start + |q|;
    NormalizedNonempty(u, item.quote);
    SliceDecodes(u, text, start, end);
    var from, to := n.spans[start].0, n.spans[end - 1].1;
    assert n.text[start..end] == q;
    if u.nfc(text) == text {
      SliceNormalizesToMatch(u, text, start, end);
    }
    hide Normalized;
  }

  lemma BoundQuoteIsFirst(u: Unicode, answer: string, item: RawCitation, order: nat, text: string, start: nat)
    requires u.Valid() && item.quote != ""
    requires OccursAt(Normalized(u, text).text, Normalized(u, item.quote).text, start)
    requires forall k | 0 <= k < start :: !OccursAt(Normalized(u, text).text, Normalized(u, item.quote).text, k)
    ensures FirstMatch(Normalized(u, text), Normalized(u, item.quote).text, text, start,
                       Bind(u, answer, item, order, text, start).citation)
  {
    hide Unicode.Valid, Decode, Encode, ClaimPosition, Normalized;
    var q := Normalized(u, item.quote).text;
    NormalizedNonempty(u, item.quote);
    TablesSound(u, text);
    SliceDecodes(u, text, start, start + |q|);
  }

  /** What an accepted citation promises: it names a known document, keeps the raw citation's URL,
      hash and claim, is grounded in that document, at the first place its quote is found, and its claim
      is marked in the answer. */
  lemma AcceptedIsGrounded(u: Unicode, answer: string, documents: Documents, item: RawCitation)
    requires u.Valid() && Judge(u, answer, documents, item).Accepted?
    ensures var c := Judge(u, answer, documents, item).row.citation;
            var order := IndexOf(documents, item.contentHash);
            && c.url == item.url && c.contentHash == item.contentHash && c.claimId == item.claimId
            && order < |documents| && documents[order].0 == item.contentHash
            && Grounded(u, documents[order].1.markdown, item.quote, c)
            && (exists start: nat :: FirstMatch(Normalized(u, documents[order].1.markdown),
                                                Normalized(u, item.quote).text, documents[order].1.markdown, start, c))
            && ClaimExists(answer, item.claimId)
  {
    hide Find, HasOutsideMatch, ClaimExists, Normalized, Grounded, Unicode.Valid, OccursAt, FirstMatch;
    var order := IndexOf(documents, item.contentHash);
    var text := documents[order].1.markdown;
    var start := Find(Normalized(u, text).text, Normalized(u, item.quote).text, 0);
    BoundQuoteIsGrounded(u, answer, item, order, text, start);
    BoundQuoteIsFirst(u, answer, item, order, text, start);
  }

  /** A page without an envelope has no outside to be quoted from. */
  lemma NoEnvelopeNoViolation(u: Unicode, document: Document, q: string)
    requires u.Valid() && !Contains(document.envelopedMarkdown, Envelope.OPEN)
    ensures !HasOutsideMatch(u, document, q)
  {
    hide Normalized, Unicode.Valid, Envelope.OutsideParts;
    var i := Find(document.envelopedMarkdown, Envelope.OPEN, 0);
  }

  /** For a page wrapped by the crawler, the envelope check depends on the two tags alone: whatever
      the page contains, it can neither cause nor prevent a violation. */
  lemma WrappedPageCheck(u: Unicode, url: string, contentHash: string, body: string, q: string)
    requires u.Valid()
    ensures HasOutsideMatch(u, Document(body, Envelope.WrapUntrusted(url, contentHash, body)), q)
            <==> Contains(Normalized(u, Envelope.OpenTag(url, contentHash) + Envelope.CLOSE).text, q)
  {
    hide Find, Normalized, Unicode.Valid, Envelope.OutsideParts, Envelope.OpenTag, Envelope.WrapUntrusted;
    Envelope.OutsideOfWrapped(url, contentHash, body);
    var tag := Envelope.OpenTag(url, contentHash);
    assert ["", tag, Envelope.CLOSE][1..] == [tag, Envelope.CLOSE];
    Envelope.JoinTwo(tag, Envelope.CLOSE);
    var w := Envelope.WrapUntrusted(url, contentHash, body);
    assert OccursAt(w, Envelope.OPEN, 0) && w != "";
    assert "" + (tag + Envelope.CLOSE) == tag + Envelope.CLOSE;
    assert Envelope.Join(Envelope.OutsideParts(w)) == tag + Envelope.CLOSE;
  }
}
