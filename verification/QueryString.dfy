/** Query strings: Python's `parse_qsl` and `urlencode`, the order their parameters are sorted in, and
    the proofs that parsing undoes encoding and that equal sorted lists are equal multisets. */
module QueryString {
  import opened Strings
  import opened Utf8
  import opened Wrappers
  import opened Sorting

  type Param = (string, string)

  /** How many leading characters come before the first that `stop` accepts. */
  function Run(s: string, stop: char -> bool): (n: nat)
    ensures n <= |s| && (n < |s| ==> stop(s[n])) && forall k | 0 <= k < n :: !stop(s[k])
  {
    if s == "" || stop(s[0]) then 0 else 1 + Run(s[1..], stop)
  }

  ghost predicate Free(s: string, stop: char -> bool) { forall c | c in s :: !stop(c) }

  lemma {:induction false} RunUpTo(a: string, b: string, stop: char -> bool)
    requires Free(a, stop) && (b == "" || stop(b[0]))
    ensures Run(a + b, stop) == |a|
  {
    if a == "" {
      assert a + b == b;
    } else {
      assert (a + b)[0] == a[0] && (a + b)[1..] == a[1..] + b && a[0] in a;
      RunUpTo(a[1..], b, stop);
    }
  }

  // ---------- percent-encoding ----------

  predicate Unreserved(b: Byte) {
    || 0x30 <= b <= 0x39 || 0x41 <= b <= 0x5A || 0x61 <= b <= 0x7A
    || b == 0x5F || b == 0x2E || b == 0x2D || b == 0x7E
  }

  function HexDigit(n: nat): char
    requires n < 16
  {
    if n < 10 then (0x30 + n) as char else (0x41 + n - 10) as char
  }

  predicate IsHex(c: char) { '0' <= c <= '9' || 'A' <= c <= 'F' || 'a' <= c <= 'f' }

  function HexValue(c: char): (n: nat)
    requires IsHex(c)
    ensures n < 16
  {
    if c <= '9' then c as int - 0x30 else if c <= 'F' then c as int - 0x41 + 10 else c as int - 0x61 + 10
  }

  function QuoteByte(b: Byte): string {
    if Unreserved(b) then [b as char]
    else if b == 0x20 then "+"
    else ['%', HexDigit(b as int / 16), HexDigit(b as int % 16)]
  }

  function QuoteBytes(bs: seq<Byte>): string {
    if bs == [] then "" else QuoteByte(bs[0]) + QuoteBytes(bs[1..])
  }

  /** `quote_plus` */
  function QuotePlus(s: string): string { QuoteBytes(Encode(s)) }

  function PlusToSpace(s: string): (r: string)
    ensures |r| == |s|
  {
    seq(|s|, i requires 0 <= i < |s| => if s[i] == '+' then ' ' else s[i])
  }

  predicate Ascii(s: string) { forall k | 0 <= k < |s| :: s[k] as int < 0x80 }

  /** `unquote_to_bytes`, of ASCII text: a `%` without two hex digits stands for itself. */
  function UnquoteBytes(s: string): seq<Byte>
    requires Ascii(s)
    decreases |s|
  {
    if s == "" then []
    else if s[0] == '%' && |s| >= 3 && IsHex(s[1]) && IsHex(s[2]) then
      [HexValue(s[1]) * 16 + HexValue(s[2])] + UnquoteBytes(s[3..])
    else
      [s[0] as int] + UnquoteBytes(s[1..])
  }

  function NotAscii(): char -> bool { (c: char) => c as int >= 0x80 }

  /** `unquote`: each run of ASCII characters is decoded by itself; `decode` is UTF-8 with
      replacement characters for what is not UTF-8. */
  function Unquote(s: string, decode: seq<Byte> -> string): string
    decreases |s|
  {
    if s == "" then ""
    else
      var n := Run(s, NotAscii());
      if n == 0 then [s[0]] + Unquote(s[1..], decode)
      else
        decode(UnquoteBytes(s[..n])) + Unquote(s[n..], decode)
  }

  ghost predicate DecodesUtf8(decode: seq<Byte> -> string) { forall s :: DecodesBack(decode, s) }

  ghost predicate DecodesBack(decode: seq<Byte> -> string, s: string) { decode(Encode(s)) == s }

  /** Quoted text holds no delimiter of a query, or of a URL, and no blank. */
  predicate Quoted(c: char) {
    || '0' <= c <= '9' || 'A' <= c <= 'Z' || 'a' <= c <= 'z'
    || c == '_' || c == '.' || c == '-' || c == '~' || c == '+' || c == '%'
  }

  lemma {:induction false} QuoteBytesQuoted(bs: seq<Byte>)
    ensures forall c | c in QuoteBytes(bs) :: Quoted(c)
  {
    if bs != [] {
      QuoteBytesQuoted(bs[1..]);
    }
  }

  lemma PlusToSpaceConcat(a: string, b: string)
    ensures PlusToSpace(a + b) == PlusToSpace(a) + PlusToSpace(b)
  {
  }

  lemma UnquoteByteBack(b: Byte, rest: string)
    requires Ascii(rest)
    ensures Ascii(PlusToSpace(QuoteByte(b)) + rest)
    ensures UnquoteBytes(PlusToSpace(QuoteByte(b)) + rest) == [b] + UnquoteBytes(rest)
  {
    var q := PlusToSpace(QuoteByte(b));
    if Unreserved(b) || b == 0x20 {
      assert q == [b as char];
      assert (q + rest)[1..] == rest && (q + rest)[0] == b as char && b as char != '%';
    } else {
      assert q == ['%', HexDigit(b as int / 16), HexDigit(b as int % 16)];
      assert (q + rest)[3..] == rest && (q + rest)[0] == q[0] && (q + rest)[1] == q[1] && (q + rest)[2] == q[2];
    }
  }

  lemma {:induction false} UnquoteBytesBack(bs: seq<Byte>)
    ensures Ascii(PlusToSpace(QuoteBytes(bs)))
    ensures UnquoteBytes(PlusToSpace(QuoteBytes(bs))) == bs
  {
    if bs == [] {
      assert PlusToSpace("") == "";
    } else {
      hide QuoteByte, PlusToSpace;
      UnquoteBytesBack(bs[1..]);
      PlusToSpaceConcat(QuoteByte(bs[0]), QuoteBytes(bs[1..]));
      UnquoteByteBack(bs[0], PlusToSpace(QuoteBytes(bs[1..])));
    }
  }

  /** A letter, digit or one of `_.-~`, which quoting leaves alone. */
  predicate PlainChar(c: char) {
    '0' <= c <= '9' || 'A' <= c <= 'Z' || 'a' <= c <= 'z' || c == '_' || c == '.' || c == '-' || c == '~'
  }

  /** Quoting leaves plain characters alone and turns blanks into plus signs. */
  lemma {:induction false} QuoteKeepsPlain(s: string)
    requires forall c | c in s :: PlainChar(c) || c == ' '
    ensures |QuotePlus(s)| == |s|
    ensures forall k | 0 <= k < |s| :: QuotePlus(s)[k] == if s[k] == ' ' then '+' else s[k]
  {
    if s != "" {
      assert s[0] in s && forall c | c in s[1..] :: c in s;
      QuoteKeepsPlain(s[1..]);
      assert EncodeChar(s[0]) == [s[0] as int];
      assert Encode(s) == [s[0] as int] + Encode(s[1..]);
      assert QuoteBytes(Encode(s)) == QuoteByte(s[0] as int) + QuoteBytes(Encode(s[1..]));
    }
  }

  /** The character, or its lower case. */
  predicate EitherCase(c: char, upper: char) { c == upper || ('A' <= upper <= 'F' && c as int == upper as int + 0x20) }

  /** An escaped byte is read whatever the case of its digits. */
  lemma EscapeReadsByte(b: Byte, c: char, d: char, rest: string)
    requires Ascii(rest) && EitherCase(c, HexDigit(b as int / 16)) && EitherCase(d, HexDigit(b as int % 16))
    ensures Ascii(['%', c, d] + rest) && UnquoteBytes(['%', c, d] + rest) == [b] + UnquoteBytes(rest)
  {
    var s := ['%', c, d] + rest;
    assert s[0] == '%' && s[1] == c && s[2] == d && s[3..] == rest;
    assert HexValue(c) == b as int / 16 && HexValue(d) == b as int % 16;
  }

  /** Decoding undoes quoting, for every text. */
  lemma UnquoteQuoted(s: string, decode: seq<Byte> -> string)
    requires DecodesUtf8(decode)
    ensures Unquote(PlusToSpace(QuotePlus(s)), decode) == s
  {
    var q := PlusToSpace(QuotePlus(s));
    UnquoteBytesBack(Encode(s));
    assert DecodesBack(decode, s);
    hide PlusToSpace, QuoteBytes, Encode, Decode, Run;
    if q == "" {
      assert UnquoteBytes(q) == [];
      EncodesNothing(s);
    } else {
      assert q[..|q|] == q && q[|q|..] == "";
      assert Unquote("", decode) == "";
    }
  }

  lemma EncodesNothing(s: string)
    ensures Encode(s) == [] <==> s == ""
  {
  }

  // ---------- parameters ----------

  function IsAmp(): char -> bool { (c: char) => c == '&' }

  function IsEquals(): char -> bool { (c: char) => c == '=' }

  /** `qs.split('&')` */
  function SplitAmp(s: string): seq<string>
    decreases |s|
  {
    var n := Run(s, IsAmp());
    if n == |s| then [s] else [s[..n]] + SplitAmp(s[n + 1..])
  }

  function ParsePiece(piece: string, decode: seq<Byte> -> string): Param {
    var n := Run(piece, IsEquals());
    var value := if n == |piece| then "" else piece[n + 1..];
    (Unquote(PlusToSpace(piece[..n]), decode), Unquote(PlusToSpace(value), decode))
  }

  function ParsePieces(pieces: seq<string>, decode: seq<Byte> -> string): seq<Param> {
    if pieces == [] then []
    else
      (if pieces[0] == "" then [] else [ParsePiece(pieces[0], decode)]) + ParsePieces(pieces[1..], decode)
  }

  /** `parse_qsl(qs, keep_blank_values=True)` */
  function ParseQsl(qs: string, decode: seq<Byte> -> string): seq<Param> {
    ParsePieces(SplitAmp(qs), decode)
  }

  function EncodePair(p: Param): string { QuotePlus(p.0) + ("=" + QuotePlus(p.1)) }

  /** `urlencode` */
  function UrlEncode(params: seq<Param>): string {
    if params == [] then ""
    else if |params| == 1 then EncodePair(params[0])
    else EncodePair(params[0]) + ("&" + UrlEncode(params[1..]))
  }

  lemma EncodePairFree(p: Param)
    ensures Free(EncodePair(p), IsAmp()) && EncodePair(p) != "" && Free(QuotePlus(p.0), IsEquals())
    ensures forall c | c in EncodePair(p) :: Quoted(c) || c == '='
  {
    QuoteBytesQuoted(Encode(p.0));
    QuoteBytesQuoted(Encode(p.1));
    var k, v := QuotePlus(p.0), QuotePlus(p.1);
    assert (forall c | c in k :: Quoted(c)) && (forall c | c in v :: Quoted(c));
    hide QuotePlus, QuoteBytes;
    assert !Quoted('=') && !Quoted('&');
  }

  lemma ParsePieceBack(p: Param, decode: seq<Byte> -> string)
    requires DecodesUtf8(decode)
    ensures ParsePiece(EncodePair(p), decode) == p
  {
    var k, v := QuotePlus(p.0), QuotePlus(p.1);
    EncodePairFree(p);
    UnquoteQuoted(p.0, decode);
    UnquoteQuoted(p.1, decode);
    hide QuotePlus, Unquote, PlusToSpace, DecodesUtf8, Run;
    RunUpTo(k, "=" + v, IsEquals());
    var s := k + ("=" + v);
    assert s[..|k|] == k && s[|k| + 1..] == v;
  }

  lemma ParsePiecesCons(piece: string, pieces: seq<string>, decode: seq<Byte> -> string)
    ensures ParsePieces([piece] + pieces, decode)
            == (if piece == "" then [] else [ParsePiece(piece, decode)]) + ParsePieces(pieces, decode)
  {
    hide ParsePiece;
    assert ([piece] + pieces)[1..] == pieces;
  }

  lemma SplitFirst(s: string, rest: string)
    requires Free(s, IsAmp())
    ensures SplitAmp(s + ("&" + rest)) == [s] + SplitAmp(rest)
    ensures SplitAmp(s) == [s]
  {
    RunUpTo(s, "&" + rest, IsAmp());
    RunUpTo(s, "", IsAmp());
    assert s + "" == s;
    var t := s + ("&" + rest);
    assert t[..|s|] == s && t[|s| + 1..] == rest;
  }

  lemma ParseFirst(p: Param, rest: string, decode: seq<Byte> -> string)
    requires DecodesUtf8(decode)
    ensures ParseQsl(EncodePair(p) + ("&" + rest), decode) == [p] + ParseQsl(rest, decode)
    ensures ParseQsl(EncodePair(p), decode) == [p]
  {
    hide EncodePair, ParsePiece, ParsePieces, DecodesUtf8, SplitAmp;
    var s := EncodePair(p);
    EncodePairFree(p);
    ParsePieceBack(p, decode);
    SplitFirst(s, rest);
    ParsePiecesCons(s, SplitAmp(rest), decode);
    ParsePiecesCons(s, [], decode);
    assert [s] + [] == [s] && [p] + [] == [p];
    ParseNothing(decode);
  }

  lemma ParseNothing(decode: seq<Byte> -> string)
    ensures ParsePieces([], decode) == [] && ParseQsl("", decode) == []
  {
    hide ParsePiece;
    assert SplitAmp("") == [""];
    ParsePiecesCons("", [], decode);
    assert [""] + [] == [""];
  }

  /** Parsing undoes encoding: every list of parameters, with any text, blank or not, in names and
      values. */
  lemma {:induction false} ParseEncoded(params: seq<Param>, decode: seq<Byte> -> string)
    requires DecodesUtf8(decode)
    ensures ParseQsl(UrlEncode(params), decode) == params
  {
    hide EncodePair, ParseQsl, DecodesUtf8;
    if params == [] {
      ParseNothing(decode);
    } else {
      ParseFirst(params[0], UrlEncode(params[1..]), decode);
      if |params| == 1 {
        assert params == [params[0]];
      } else {
        ParseEncoded(params[1..], decode);
        assert params == [params[0]] + params[1..];
      }
    }
  }

  lemma {:induction false} EncodedChars(params: seq<Param>)
    ensures forall c | c in UrlEncode(params) :: Quoted(c) || c == '=' || c == '&'
    ensures UrlEncode(params) == "" <==> params == []
  {
    hide EncodePair;
    if params != [] {
      EncodePairFree(params[0]);
      EncodedChars(params[1..]);
    }
  }

  // ---------- the order of parameters ----------

  predicate StringLe(a: string, b: string) {
    if a == "" then true
    else if b == "" then false
    else a[0] < b[0] || (a[0] == b[0] && StringLe(a[1..], b[1..]))
  }

  predicate ParamLe(p: Param, q: Param) {
    if p.0 == q.0 then StringLe(p.1, q.1) else StringLe(p.0, q.0)
  }

  /** Code point order: a prefix, or smaller at the first place where they differ. */
  ghost predicate AtMost(a: string, b: string) {
    a <= b || exists k: nat :: DiffersAt(a, b, k)
  }

  ghost predicate DiffersAt(a: string, b: string, k: nat) {
    k < |a| && k < |b| && a[..k] == b[..k] && a[k] < b[k]
  }

  lemma PrefixTail(a: string, b: string)
    requires a != "" && a <= b
    ensures a[0] == b[0] && a[1..] <= b[1..]
  {
    assert b[..|a|][1..] == b[1..][..|a| - 1];
  }

  lemma {:induction false} StringLeIff(a: string, b: string)
    ensures StringLe(a, b) <==> AtMost(a, b)
  {
    if a != "" && b != "" {
      StringLeIff(a[1..], b[1..]);
      assert a == [a[0]] + a[1..] && b == [b[0]] + b[1..];
      if a[0] < b[0] {
        assert DiffersAt(a, b, 0);
      } else if a[0] == b[0] && StringLe(a, b) {
        if k: nat :| DiffersAt(a[1..], b[1..], k) {
          assert a[..k + 1] == [a[0]] + a[1..][..k] && b[..k + 1] == [b[0]] + b[1..][..k];
          assert DiffersAt(a, b, k + 1);
        }
      } else {
        if a <= b {
          PrefixTail(a, b);
        }
        forall k: nat ensures !DiffersAt(a, b, k) {
          if DiffersAt(a, b, k) && k > 0 {
            assert a[0] == a[..k][0] && b[0] == b[..k][0];
            assert a[1..][..k - 1] == a[..k][1..] && b[1..][..k - 1] == b[..k][1..];
            assert DiffersAt(a[1..], b[1..], k - 1);
          }
        }
      }
    }
  }

  lemma {:induction false} StringLeTotal(a: string, b: string)
    ensures StringLe(a, b) || StringLe(b, a)
    ensures StringLe(a, b) && StringLe(b, a) ==> a == b
  {
    if a != "" && b != "" {
      StringLeTotal(a[1..], b[1..]);
      assert a == [a[0]] + a[1..] && b == [b[0]] + b[1..];
    }
  }

  lemma {:induction false} StringLeTransitive(a: string, b: string, c: string)
    requires StringLe(a, b) && StringLe(b, c)
    ensures StringLe(a, c)
  {
    if a != "" && a[0] == b[0] == c[0] {
      StringLeTransitive(a[1..], b[1..], c[1..]);
    }
  }

  lemma ParamLeTotal(p: Param, q: Param)
    ensures ParamLe(p, q) || ParamLe(q, p)
    ensures ParamLe(p, q) && ParamLe(q, p) ==> p == q
  {
    StringLeTotal(p.0, q.0);
    StringLeTotal(p.1, q.1);
  }

  lemma ParamLeTransitive(p: Param, q: Param, r: Param)
    requires ParamLe(p, q) && ParamLe(q, r)
    ensures ParamLe(p, r)
  {
    hide StringLe;
    if p.0 == q.0 == r.0 {
      StringLeTransitive(p.1, q.1, r.1);
    } else if p.0 != q.0 && q.0 != r.0 {
      StringLeTransitive(p.0, q.0, r.0);
      StringLeTotal(p.0, q.0);
    }
  }

  lemma ParamLeOrders()
    ensures TotalPreorder(ParamLe)
  {
    hide ParamLe;
    forall p, q ensures ParamLe(p, q) || ParamLe(q, p) {
      ParamLeTotal(p, q);
    }
    forall p, q, r | ParamLe(p, q) && ParamLe(q, r) ensures ParamLe(p, r) {
      ParamLeTransitive(p, q, r);
    }
  }

  /** Sorting forgets the order of parameters, and nothing else. */
  lemma SortIff(ps: seq<Param>, qs: seq<Param>)
    ensures StableSort(ps, ParamLe) == StableSort(qs, ParamLe) <==> multiset(ps) == multiset(qs)
  {
    hide ParamLe, StableSort;
    ParamLeOrders();
    StableSortProperties(ps, ParamLe);
    StableSortProperties(qs, ParamLe);
    if multiset(ps) == multiset(qs) {
      SortedUnique(StableSort(ps, ParamLe), StableSort(qs, ParamLe));
    }
  }

  lemma TailMultiset(s: seq<Param>)
    requires s != []
    ensures multiset(s[1..]) == multiset(s) - multiset{s[0]}
  {
    assert s == [s[0]] + s[1..];
  }

  lemma HeadsAgree(s: seq<Param>, t: seq<Param>)
    requires s != [] && t != [] && Sorted(s, ParamLe) && Sorted(t, ParamLe) && multiset(s) == multiset(t)
    ensures s[0] == t[0]
  {
    hide ParamLe;
    assert s[0] in multiset(t) && t[0] in multiset(s);
    var i, j :| 0 <= i < |t| && t[i] == s[0] && 0 <= j < |s| && s[j] == t[0];
    ParamLeTotal(s[0], t[0]);
  }

  lemma {:induction false} SortedUnique(s: seq<Param>, t: seq<Param>)
    requires Sorted(s, ParamLe) && Sorted(t, ParamLe) && multiset(s) == multiset(t)
    ensures s == t
  {
    hide ParamLe;
    assert |s| == |multiset(s)| == |multiset(t)| == |t|;
    if s != [] {
      HeadsAgree(s, t);
      TailMultiset(s);
      TailMultiset(t);
      SortedUnique(s[1..], t[1..]);
      assert s == [s[0]] + s[1..] && t == [t[0]] + t[1..];
    }
  }

  lemma SortedStays(ps: seq<Param>)
    requires Sorted(ps, ParamLe)
    ensures StableSort(ps, ParamLe) == ps
  {
    hide ParamLe, StableSort;
    ParamLeOrders();
    StableSortProperties(ps, ParamLe);
    SortedUnique(StableSort(ps, ParamLe), ps);
  }
}
