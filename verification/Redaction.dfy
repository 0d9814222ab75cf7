/** Secret redaction: five ordered substitutions of a marker for every match of a pattern, what they mask,
    what they leave as it was, and why no substitution brings a secret back to light. */
module Redaction {
  import opened Strings

  const MARK := "[REDACTED]"

  /** The secret patterns, in the order they are applied. */
  datatype Pattern = OpenAi | Anthropic | Google | Groq | Bearer

  const PATTERNS := [OpenAi, Anthropic, Google, Groq, Bearer]

  predicate IsAlnum(c: char) { '0' <= c <= '9' || 'A' <= c <= 'Z' || 'a' <= c <= 'z' }

  predicate IsKeyChar(c: char) { IsAlnum(c) || c == '_' || c == '-' }

  const AUTH := "authorization:"
  const BEARER := "bearer"

  /** The regular languages of the patterns. */
  ghost predicate Matches(p: Pattern, w: string) {
    match p
    case OpenAi => |w| >= 23 && "sk-" <= w && forall k | 3 <= k < |w| :: IsKeyChar(w[k])
    case Anthropic => |w| >= 27 && "sk-ant-" <= w && forall k | 7 <= k < |w| :: IsKeyChar(w[k])
    case Google => |w| == 39 && "AIza" <= w && forall k | 4 <= k < |w| :: IsKeyChar(w[k])
    case Groq => |w| >= 44 && "gsk_" <= w && forall k | 4 <= k < |w| :: IsAlnum(w[k])
    case Bearer => exists i, j :: BearerSplit(w, i, j)
  }

  ghost predicate BearerSplit(w: string, i: int, j: int) {
    && 14 <= i && i + 6 < j < |w|
    && StartsFolded(w, AUTH) && StartsFolded(w[i..], BEARER)
    && (forall k | 14 <= k < i || i + 6 <= k < j :: IsSpace(w[k]))
    && forall k | j <= k < |w| :: !IsSpace(w[k])
  }

  datatype CharClass = KeyChars | AlnumChars | SpaceChars | NonSpaceChars {
    predicate Has(c: char) {
      match this
      case KeyChars => IsKeyChar(c)
      case AlnumChars => IsAlnum(c)
      case SpaceChars => IsSpace(c)
      case NonSpaceChars => !IsSpace(c)
    }
  }

  /** How many leading characters lie in the class: what a greedy `[...]*` consumes. */
  function Run(cls: CharClass, s: string): (n: nat)
    ensures n <= |s|
    ensures forall k | 0 <= k < n :: cls.Has(s[k])
    ensures n < |s| ==> !cls.Has(s[n])
  {
    if s != "" && cls.Has(s[0]) then 1 + Run(cls, s[1..]) else 0
  }

  /** The length of the pattern's greedy match at the head of `s`, or 0. */
  function MatchLen(p: Pattern, s: string): (n: nat)
    ensures n <= |s|
  {
    match p
    case OpenAi => if "sk-" <= s && Run(KeyChars, s[3..]) >= 20 then 3 + Run(KeyChars, s[3..]) else 0
    case Anthropic => if "sk-ant-" <= s && Run(KeyChars, s[7..]) >= 20 then 7 + Run(KeyChars, s[7..]) else 0
    case Google => if "AIza" <= s && Run(KeyChars, s[4..]) >= 35 then 39 else 0
    case Groq => if "gsk_" <= s && Run(AlnumChars, s[4..]) >= 40 then 4 + Run(AlnumChars, s[4..]) else 0
    case Bearer =>
      if !StartsFolded(s, AUTH) then 0
      else
        var i := 14 + Run(SpaceChars, s[14..]);
        if !StartsFolded(s[i..], BEARER) then 0
        else
          var gap := Run(SpaceChars, s[i + 6..]);
          var word := Run(NonSpaceChars, s[i + 6 + gap..]);
          if gap == 0 || word == 0 then 0 else i + 6 + gap + word
  }

  /** `pattern.sub("[REDACTED]", s)`: leftmost, non-overlapping. */
  function Sub(p: Pattern, s: string): string
    decreases |s|
  {
    if s == "" then ""
    else if MatchLen(p, s) > 0 then MARK + Sub(p, s[MatchLen(p, s)..])
    else [s[0]] + Sub(p, s[1..])
  }

  function SubAll(ps: seq<Pattern>, s: string): string {
    if ps == [] then s else Sub(ps[|ps| - 1], SubAll(ps[..|ps| - 1], s))
  }

  function Redact(s: string): string {
    SubAll(PATTERNS, s)
  }

  method RedactSecrets(text: string) returns (redacted: string)
    ensures redacted == Redact(text)
    ensures HoldsNoSecret(redacted) && MasksSecretsOnly(text, redacted)
  {
    redacted := text;
    for k := 0 to |PATTERNS|
      invariant redacted == SubAll(PATTERNS[..k], text)
    {
      assert PATTERNS[..k + 1][..k] == PATTERNS[..k];
      redacted := Sub(PATTERNS[k], redacted);
    }
    assert PATTERNS[..|PATTERNS|] == PATTERNS;
    UnchangedIffNoSecret(text);
    RedactMasksSecrets(text);
  }

  // ---------- the greedy matcher against the languages ----------

  lemma {:induction false} RunMax(cls: CharClass, s: string, n: nat)
    requires n <= |s| && forall k | 0 <= k < n :: cls.Has(s[k])
    ensures n <= Run(cls, s)
  {
    if n > 0 {
      RunMax(cls, s[1..], n - 1);
    }
  }

  lemma RunIs(cls: CharClass, s: string, n: nat)
    requires n < |s| && (forall k | 0 <= k < n :: cls.Has(s[k])) && !cls.Has(s[n])
    ensures Run(cls, s) == n
  {
    RunMax(cls, s, n);
  }

  lemma FoldedShift(s: string, n: nat, i: nat, w: string)
    requires i + |w| <= n <= |s|
    ensures StartsFolded(s[..n][i..], w) <==> StartsFolded(s[i..], w)
  {
    assert forall k | 0 <= k < |w| :: s[..n][i..][k] == s[i..][k];
  }

  lemma BearerSound(s: string)
    requires MatchLen(Bearer, s) > 0
    ensures Matches(Bearer, s[..MatchLen(Bearer, s)])
  {
    hide StartsFolded, IsSpace;
    var i := 14 + Run(SpaceChars, s[14..]);
    var j := i + 6 + Run(SpaceChars, s[i + 6..]);
    var n := MatchLen(Bearer, s);
    var w := s[..n];
    FoldedShift(s, n, 0, AUTH);
    assert w[0..] == w && s[0..] == s;
    FoldedShift(s, n, i, BEARER);
    assert forall k | 14 <= k < i :: w[k] == s[14..][k - 14];
    assert forall k | i + 6 <= k < j :: w[k] == s[i + 6..][k - i - 6];
    assert forall k | j <= k < n :: w[k] == s[j..][k - j];
    assert BearerSplit(w, i, j);
  }

  lemma MatchSound(p: Pattern, s: string)
    ensures MatchLen(p, s) > 0 ==> Matches(p, s[..MatchLen(p, s)])
  {
    var n := MatchLen(p, s);
    if n > 0 {
      var w := s[..n];
      match p {
        case OpenAi => assert forall k | 3 <= k < n :: w[k] == s[3..][k - 3];
        case Anthropic => assert forall k | 7 <= k < n :: w[k] == s[7..][k - 7];
        case Google => assert forall k | 4 <= k < n :: w[k] == s[4..][k - 4];
        case Groq => assert forall k | 4 <= k < n :: w[k] == s[4..][k - 4];
        case Bearer => BearerSound(s);
      }
    }
  }

  lemma FoldedNotSpace(s: string)
    ensures StartsFolded(s, BEARER) ==> !IsSpace(s[0])
    ensures StartsFolded(s, AUTH) ==> !IsSpace(s[0])
  {
    if StartsFolded(s, BEARER) {
      assert EqualsFolded(s[0], BEARER[0]);
    }
    if StartsFolded(s, AUTH) {
      assert EqualsFolded(s[0], AUTH[0]);
    }
  }

  lemma BearerComplete(s: string, n: nat, i: nat, j: nat)
    requires n <= |s| && BearerSplit(s[..n], i, j)
    ensures n <= MatchLen(Bearer, s)
  {
    hide StartsFolded, IsSpace, Run;
    var w := s[..n];
    FoldedShift(s, n, 0, AUTH);
    assert w[0..] == w && s[0..] == s;
    FoldedShift(s, n, i, BEARER);
    FoldedNotSpace(s[i..]);
    assert s[14..][i - 14] == s[i..][0];
    assert forall k | 14 <= k < i :: s[14..][k - 14] == w[k];
    RunIs(SpaceChars, s[14..], i - 14);
    assert forall k | i + 6 <= k <= j :: s[i + 6..][k - i - 6] == w[k];
    RunIs(SpaceChars, s[i + 6..], j - i - 6);
    assert forall k | j <= k < n :: s[j..][k - j] == w[k];
    RunMax(NonSpaceChars, s[j..], n - j);
  }

  /** Greedy matching finds a match wherever the language has one, and takes the longest. */
  lemma MatchComplete(p: Pattern, s: string, n: nat)
    requires n <= |s| && Matches(p, s[..n])
    ensures 0 < n <= MatchLen(p, s)
  {
    var w := s[..n];
    assert forall k | 0 <= k < n :: w[k] == s[k];
    match p {
      case OpenAi => RunMax(KeyChars, s[3..], n - 3);
      case Anthropic => RunMax(KeyChars, s[7..], n - 7);
      case Google => RunMax(KeyChars, s[4..], 35);
      case Groq => RunMax(AlnumChars, s[4..], n - 4);
      case Bearer =>
        var i: int, j: int :| BearerSplit(w, i, j);
        BearerComplete(s, n, i, j);
    }
  }

  ghost predicate NoMatch(p: Pattern, s: string) {
    forall i | 0 <= i <= |s| :: MatchLen(p, s[i..]) == 0
  }

  /** No substring is a secret of pattern `p`. */
  ghost predicate SecretFree(p: Pattern, s: string) {
    forall i, j | 0 <= i <= j <= |s| :: !Matches(p, s[i..j])
  }

  ghost predicate HoldsNoSecret(s: string) {
    forall p :: SecretFree(p, s)
  }

  /** The matcher is silent everywhere iff no substring at all is in the language. */
  lemma NoMatchIff(p: Pattern, s: string)
    ensures NoMatch(p, s) <==> SecretFree(p, s)
  {
    hide Matches, MatchLen;
    forall i, j | 0 <= i <= j <= |s| && Matches(p, s[i..j])
      ensures MatchLen(p, s[i..]) > 0
    {
      assert s[i..][..j - i] == s[i..j];
      MatchComplete(p, s[i..], j - i);
    }
    forall i | 0 <= i <= |s| && MatchLen(p, s[i..]) > 0
      ensures Matches(p, s[i..i + MatchLen(p, s[i..])])
    {
      MatchSound(p, s[i..]);
      assert s[i..][..MatchLen(p, s[i..])] == s[i..i + MatchLen(p, s[i..])];
    }
  }

  // ---------- substitution creates no match ----------

  /** No match begins inside the marker, whatever follows it. */
  lemma MarkHasNoMatch(p: Pattern, m: nat, rest: string)
    requires m < |MARK|
    ensures MatchLen(p, MARK[m..] + rest) == 0
  {
    var t := MARK[m..] + rest;
    assert t[0] == MARK[m];
    assert m + 1 < |MARK| ==> t[1] == MARK[m + 1];
  }

  lemma SubStep(p: Pattern, s: string)
    ensures s == "" ==> Sub(p, s) == ""
    ensures s != "" && MatchLen(p, s) == 0 ==> Sub(p, s) == [s[0]] + Sub(p, s[1..])
    ensures s != "" && MatchLen(p, s) > 0 ==> Sub(p, s) == MARK + Sub(p, s[MatchLen(p, s)..]) && Sub(p, s)[0] == '['
  {
    hide MatchLen;
  }

  /** A bracket-free prefix of the result was copied from the head of the source. */
  lemma {:induction false} PrefixCopied(p: Pattern, s: string, u: string)
    requires '[' !in u && u <= Sub(p, s)
    ensures u <= s && Sub(p, s) == u + Sub(p, s[|u|..])
    ensures u != "" ==> MatchLen(p, s) == 0
  {
    hide MatchLen, Sub;
    if u == "" {
      assert s[0..] == s;
    } else {
      SubStep(p, s);
      assert Sub(p, s)[0] == u[0] && u[0] in u;
      PrefixCopied(p, s[1..], u[1..]);
      var rest := Sub(p, s[|u|..]);
      assert s[1..][|u| - 1..] == s[|u|..];
      assert [u[0]] + (u[1..] + rest) == u + rest;
    }
  }

  /** A key pattern matches at the head of `s` because of a bracket-free prefix alone. */
  lemma KeyWitness(q: Pattern, s: string) returns (u: string)
    requires q != Bearer && MatchLen(q, s) > 0
    ensures '[' !in u && u != "" && u <= s
    ensures forall t | u <= t :: MatchLen(q, t) > 0
  {
    MatchSound(q, s);
    u := s[..MatchLen(q, s)];
    forall t | u <= t ensures MatchLen(q, t) > 0 {
      assert t[..|u|] == u;
      MatchComplete(q, t, |u|);
    }
  }

  lemma KeyMatchCopied(q: Pattern, p: Pattern, s: string)
    requires q != Bearer && (q == p || MatchLen(q, s) == 0)
    ensures MatchLen(q, Sub(p, s)) == 0
  {
    hide MatchLen;
    if MatchLen(q, Sub(p, s)) > 0 {
      var u := KeyWitness(q, Sub(p, s));
      PrefixCopied(p, s, u);
    }
  }

  lemma SubHeadSpace(s: string)
    requires Sub(Bearer, s) != "" && !IsSpace(Sub(Bearer, s)[0])
    ensures s != "" && !IsSpace(s[0])
  {
    FoldedNotSpace(s);
  }

  lemma FoldedNotBracket(s: string, w: string)
    requires StartsFolded(s, w) && (w == AUTH || w == BEARER)
    ensures '[' !in s[..|w|]
  {
    forall k | 0 <= k < |w| ensures s[k] != '[' {
      assert EqualsFolded(s[k], w[k]);
    }
  }

  /** The part of a bearer header before its credential, and what makes it match. */
  lemma BearerWitness(t: string) returns (u: string)
    requires MatchLen(Bearer, t) > 0
    ensures '[' !in u && u != "" && u <= t && |u| < |t| && !IsSpace(t[|u|])
    ensures forall s | u < s && !IsSpace(s[|u|]) :: MatchLen(Bearer, s) > 0
  {
    hide StartsFolded, IsSpace, MatchLen;
    MatchSound(Bearer, t);
    var w := t[..MatchLen(Bearer, t)];
    var i, j :| BearerSplit(w, i, j);
    u := w[..j];
    assert w[j] == t[j] && u == t[..j];
    assert u == w[..14] + w[14..i] + w[i..][..6] + w[i + 6..j];
    FoldedNotBracket(w, AUTH);
    FoldedNotBracket(w[i..], BEARER);
    BracketNotSpace(w[14..i]);
    BracketNotSpace(w[i + 6..j]);
    forall s | u < s && !IsSpace(s[|u|]) ensures MatchLen(Bearer, s) > 0 {
      var v := s[..j + 1];
      assert v[..j] == w[..j];
      FoldedPrefix(v, w, j, 0, AUTH);
      FoldedPrefix(v, w, j, i, BEARER);
      assert v[0..] == v && w[0..] == w;
      assert forall k | 0 <= k < j :: v[k] == v[..j][k] == w[k];
      assert BearerSplit(v, i, j);
      MatchComplete(Bearer, s, j + 1);
    }
  }

  lemma FoldedPrefix(v: string, w: string, j: nat, i: nat, f: string)
    requires j <= |v| && j <= |w| && v[..j] == w[..j] && i + |f| <= j
    ensures StartsFolded(v[i..], f) <==> StartsFolded(w[i..], f)
  {
    FoldedShift(v, j, i, f);
    FoldedShift(w, j, i, f);
  }

  lemma BracketNotSpace(s: string)
    requires forall k | 0 <= k < |s| :: IsSpace(s[k])
    ensures '[' !in s
  {
  }

  lemma BearerMatchCopied(s: string)
    ensures MatchLen(Bearer, Sub(Bearer, s)) == 0
  {
    hide MatchLen, IsSpace;
    if MatchLen(Bearer, Sub(Bearer, s)) > 0 {
      var u := BearerWitness(Sub(Bearer, s));
      PrefixCopied(Bearer, s, u);
      SubHeadSpace(s[|u|..]);
    }
  }

  lemma NoMatchSuffix(p: Pattern, s: string, n: nat)
    requires n <= |s| && NoMatch(p, s)
    ensures NoMatch(p, s[n..])
  {
    forall i | 0 <= i <= |s| - n ensures MatchLen(p, s[n..][i..]) == 0 {
      assert s[n..][i..] == s[n + i..];
    }
  }

  /** Substituting for `p` leaves no match of `p`, and brings back none of a key pattern that had
      none. */
  lemma {:induction false} SubClean(q: Pattern, p: Pattern, s: string, k: nat)
    requires q == p || (q != Bearer && NoMatch(q, s))
    requires k <= |Sub(p, s)|
    ensures MatchLen(q, Sub(p, s)[k..]) == 0
    decreases |s|
  {
    hide MatchLen, Sub, NoMatch;
    var t := Sub(p, s);
    SubStep(p, s);
    if s == "" {
      assert t[k..] == "";
    } else {
      var n := if MatchLen(p, s) > 0 then MatchLen(p, s) else 1;
      var head := if MatchLen(p, s) > 0 then MARK else [s[0]];
      var rest := Sub(p, s[n..]);
      assert t == head + rest;
      if k >= |head| {
        if q != p {
          NoMatchSuffix(q, s, n);
        }
        SubClean(q, p, s[n..], k - |head|);
        assert t[k..] == rest[k - |head|..];
      } else if MatchLen(p, s) > 0 {
        assert t[k..] == MARK[k..] + rest;
        MarkHasNoMatch(q, k, rest);
      } else {
        assert t[k..] == t;
        if q == Bearer {
          BearerMatchCopied(s);
        } else {
          if q != p {
            NoMatchAtHead(q, s);
          }
          KeyMatchCopied(q, p, s);
        }
      }
    }
  }

  lemma NoMatchAtHead(p: Pattern, s: string)
    requires NoMatch(p, s)
    ensures MatchLen(p, s) == 0
  {
    assert s[0..] == s;
  }

  lemma {:induction false} SubAllClean(ps: seq<Pattern>, q: Pattern, s: string)
    requires forall k | 0 <= k < |ps| - 1 :: ps[k] != Bearer
    requires q in ps
    ensures NoMatch(q, SubAll(ps, s))
  {
    var p, before := ps[|ps| - 1], SubAll(ps[..|ps| - 1], s);
    if q != p {
      SubAllClean(ps[..|ps| - 1], q, s);
    }
    forall k | 0 <= k <= |Sub(p, before)| ensures MatchLen(q, Sub(p, before)[k..]) == 0 {
      SubClean(q, p, before, k);
    }
  }

  lemma {:induction false} SubIdle(p: Pattern, s: string)
    requires NoMatch(p, s)
    ensures Sub(p, s) == s
  {
    if s != "" {
      assert s[0..] == s;
      NoMatchSuffix(p, s, 1);
      SubIdle(p, s[1..]);
    }
  }

  lemma {:induction false} SubAllIdle(ps: seq<Pattern>, s: string)
    requires forall p | p in ps :: NoMatch(p, s)
    ensures SubAll(ps, s) == s
  {
    if ps != [] {
      SubAllIdle(ps[..|ps| - 1], s);
      SubIdle(ps[|ps| - 1], s);
    }
  }

  // ---------- theorems ----------

  lemma RedactClean(s: string, p: Pattern)
    ensures NoMatch(p, Redact(s))
  {
    assert p == PATTERNS[match p case OpenAi => 0 case Anthropic => 1 case Google => 2 case Groq => 3 case Bearer => 4];
    SubAllClean(PATTERNS, p, s);
  }

  lemma HoldsNoSecretIff(s: string)
    ensures HoldsNoSecret(s) <==> forall p :: NoMatch(p, s)
  {
    hide SecretFree, NoMatch;
    forall p ensures NoMatch(p, s) <==> SecretFree(p, s) {
      NoMatchIff(p, s);
    }
  }

  /** No secret is left: neither a substitution nor the marker it inserts ever brings a match back.
      Redaction changes a text iff the text holds a secret, and is idempotent. */
  lemma UnchangedIffNoSecret(s: string)
    ensures Redact(s) == s <==> HoldsNoSecret(s)
    ensures HoldsNoSecret(Redact(s)) && Redact(Redact(s)) == Redact(s)
  {
    hide NoMatch, HoldsNoSecret;
    HoldsNoSecretIff(s);
    HoldsNoSecretIff(Redact(s));
    forall p ensures NoMatch(p, Redact(s)) {
      RedactClean(s, p);
    }
    SubAllIdle(PATTERNS, Redact(s));
    if HoldsNoSecret(s) {
      SubAllIdle(PATTERNS, s);
    }
  }

  // ---------- what is masked, and what is kept ----------

  /** A redacted text, piece by piece: a character kept, or a stretch that one pass replaced by the marker,
      itself made of what earlier passes left. */
  datatype Piece = Kept(c: char) | Masked(p: Pattern, inside: seq<Piece>)

  /** The text before any redaction. */
  function Spelled(ps: seq<Piece>): string {
    if ps == [] then "" else SpelledPiece(ps[0]) + Spelled(ps[1..])
  }

  function SpelledPiece(x: Piece): string {
    match x case Kept(c) => [c] case Masked(_, inside) => Spelled(inside)
  }

  /** The text as it is shown. */
  function Shown(ps: seq<Piece>): string {
    if ps == [] then "" else ShownPiece(ps[0]) + Shown(ps[1..])
  }

  function ShownPiece(x: Piece): string { match x case Kept(c) => [c] case Masked(_, _) => MARK }

  function Rank(p: Pattern): nat {
    match p case OpenAi => 0 case Anthropic => 1 case Google => 2 case Groq => 3 case Bearer => 4
  }

  /** Each masked stretch is a secret of its pattern in the text as that pattern's pass finds it, after the
      passes before it. */
  ghost predicate AllSecrets(ps: seq<Piece>, passes: nat) {
    forall x | x in ps && x.Masked? ::
      Rank(x.p) < passes && Matches(x.p, Shown(x.inside)) && AllSecrets(x.inside, Rank(x.p))
  }

  /** `shown` is `text` with stretches of it masked, each of them a secret, and all else kept in order. */
  ghost predicate MasksSecretsOnly(text: string, shown: string) {
    exists ps :: Spelled(ps) == text && Shown(ps) == shown && AllSecrets(ps, |PATTERNS|)
  }

  lemma {:induction false} PiecesConcat(ps: seq<Piece>, qs: seq<Piece>)
    ensures Spelled(ps + qs) == Spelled(ps) + Spelled(qs) && Shown(ps + qs) == Shown(ps) + Shown(qs)
  {
    if ps == [] {
      assert ps + qs == qs;
    } else {
      hide SpelledPiece, ShownPiece;
      assert (ps + qs)[0] == ps[0] && (ps + qs)[1..] == ps[1..] + qs;
      PiecesConcat(ps[1..], qs);
      Assoc(SpelledPiece(ps[0]), Spelled(ps[1..]), Spelled(qs));
      Assoc(ShownPiece(ps[0]), Shown(ps[1..]), Shown(qs));
    }
  }

  lemma Assoc(a: string, b: string, c: string)
    ensures a + (b + c) == (a + b) + c
  {
  }

  lemma OnePiece(x: Piece)
    ensures Shown([x]) == ShownPiece(x)
    ensures Spelled([x]) == SpelledPiece(x)
  {
    hide SpelledPiece, ShownPiece;
    assert [x][1..] == [] && Shown([]) == "" && Spelled([]) == "";
  }

  /** Where a match ends: a key before any bracket, a credential at white space or the end. */
  lemma MatchEnd(p: Pattern, s: string)
    requires MatchLen(p, s) > 0
    ensures p != Bearer ==> '[' !in s[..MatchLen(p, s)]
    ensures p == Bearer && MatchLen(p, s) < |s| ==> IsSpace(s[MatchLen(p, s)])
  {
    if p == Bearer {
      if MatchLen(p, s) < |s| {
        BearerEnd(s);
      }
    } else {
      hide MatchLen;
      MatchSound(p, s);
      assert !IsKeyChar('[');
    }
  }

  lemma BearerEnd(s: string)
    requires 0 < MatchLen(Bearer, s) < |s|
    ensures IsSpace(s[MatchLen(Bearer, s)])
  {
    hide Run, IsSpace, StartsFolded;
    var i := 14 + Run(SpaceChars, s[14..]);
    var j := i + 6 + Run(SpaceChars, s[i + 6..]);
    assert MatchLen(Bearer, s) == j + Run(NonSpaceChars, s[j..]);
  }

  /** How many pieces a match of `n` characters takes. */
  function Cover(ps: seq<Piece>, n: nat): (k: nat)
    requires n <= |Shown(ps)|
    ensures k <= |ps| && (n > 0 ==> k > 0)
  {
    if n == 0 then 0
    else if n <= |ShownPiece(ps[0])| then 1
    else 1 + Cover(ps[1..], n - |ShownPiece(ps[0])|)
  }

  /** A marker at `m` that begins before `n` and ends behind it. */
  ghost predicate MarkAcross(s: string, n: nat, m: nat) {
    m < n < m + |MARK| <= |s| && s[m..m + |MARK|] == MARK
  }

  lemma {:induction false} CoverSplits(ps: seq<Piece>, n: nat)
    requires n <= |Shown(ps)|
    ensures var l := |Shown(ps[..Cover(ps, n)])|;
            l >= n && (l > n ==> exists m: nat :: MarkAcross(Shown(ps), n, m))
  {
    hide Shown, ShownPiece;
    ShownHead(ps);
    if n == 0 {
      ShownHead(ps[..0]);
    } else {
      var x := ps[0];
      var l, rest := |ShownPiece(x)|, Shown(ps[1..]);
      OnePiece(x);
      if n <= l {
        assert ps[..1] == [x] && Cover(ps, n) == 1;
        if n < l {
          AcrossFirst(x, rest, n);
        }
      } else {
        var d := n - l;
        var k := Cover(ps[1..], d);
        CoverSplits(ps[1..], d);
        assert ps[..k + 1] == [x] + ps[1..][..k];
        PiecesConcat([x], ps[1..][..k]);
        if m: nat :| MarkAcross(rest, d, m) {
          AcrossLater(ShownPiece(x), rest, d, m);
        }
      }
    }
  }

  lemma ShownHead(ps: seq<Piece>)
    ensures ps == [] ==> Shown(ps) == ""
    ensures ps != [] ==> Shown(ps) == ShownPiece(ps[0]) + Shown(ps[1..])
  {
  }

  lemma AcrossFirst(x: Piece, rest: string, n: nat)
    requires 0 < n < |ShownPiece(x)|
    ensures MarkAcross(ShownPiece(x) + rest, n, 0)
  {
    assert (MARK + rest)[0..|MARK|] == MARK;
  }

  lemma AcrossLater(first: string, rest: string, n: nat, m: nat)
    requires MarkAcross(rest, n, m)
    ensures MarkAcross(first + rest, |first| + n, |first| + m)
  {
    assert (first + rest)[|first| + m..|first| + m + |MARK|] == rest[m..m + |MARK|];
  }

  lemma MarkHasNoSpace(k: nat)
    requires k < |MARK|
    ensures !IsSpace(MARK[k])
  {
  }

  /** A match never ends inside a marker. */
  lemma MatchTakesWholePieces(p: Pattern, ps: seq<Piece>)
    requires MatchLen(p, Shown(ps)) > 0
    ensures |Shown(ps[..Cover(ps, MatchLen(p, Shown(ps)))])| == MatchLen(p, Shown(ps))
  {
    hide MatchLen, Shown, Cover, IsSpace;
    var s := Shown(ps);
    var n := MatchLen(p, s);
    CoverSplits(ps, n);
    MatchEnd(p, s);
    if m: nat :| MarkAcross(s, n, m) {
      assert s[m] == s[m..m + |MARK|][0] && s[m] == s[..n][m];
      assert s[n] == s[m..m + |MARK|][n - m];
      MarkHasNoSpace(n - m);
    }
  }

  /** One pass over the pieces. */
  function Mask(p: Pattern, ps: seq<Piece>): seq<Piece>
    decreases |ps|
  {
    if ps == [] then []
    else
      var n := MatchLen(p, Shown(ps));
      if n > 0 then [Masked(p, ps[..Cover(ps, n)])] + Mask(p, ps[Cover(ps, n)..])
      else [ps[0]] + Mask(p, ps[1..])
  }

  lemma {:induction false} SubSkips(p: Pattern, a: string, t: string)
    requires forall k | 0 <= k < |a| :: MatchLen(p, (a + t)[k..]) == 0
    ensures Sub(p, a + t) == a + Sub(p, t)
  {
    hide MatchLen, Sub;
    if a == "" {
      assert a + t == t;
    } else {
      assert (a + t)[0..] == a + t && (a + t)[1..] == a[1..] + t;
      SubStep(p, a + t);
      forall k | 0 <= k < |a[1..]| ensures MatchLen(p, (a[1..] + t)[k..]) == 0 {
        assert (a[1..] + t)[k..] == (a + t)[k + 1..];
      }
      SubSkips(p, a[1..], t);
      assert [a[0]] + (a[1..] + Sub(p, t)) == a + Sub(p, t);
    }
  }

  lemma SubSkipsMark(p: Pattern, t: string)
    ensures Sub(p, MARK + t) == MARK + Sub(p, t) && MatchLen(p, MARK + t) == 0
  {
    hide MatchLen, Sub;
    forall k | 0 <= k < |MARK| ensures MatchLen(p, (MARK + t)[k..]) == 0 {
      MarkHasNoMatch(p, k, t);
      assert (MARK + t)[k..] == MARK[k..] + t;
    }
    assert (MARK + t)[0..] == MARK + t;
    SubSkips(p, MARK, t);
  }

  lemma MaskHead(p: Pattern, ps: seq<Piece>)
    requires ps != []
    ensures var s, rest := Shown(ps), Shown(ps[1..]);
            && (MatchLen(p, s) == 0 ==> Sub(p, s) == ShownPiece(ps[0]) + Sub(p, rest))
            && (MatchLen(p, s) > 0 ==> Sub(p, s) == MARK + Sub(p, s[MatchLen(p, s)..]))
  {
    hide MatchLen, Sub;
    var s, rest := Shown(ps), Shown(ps[1..]);
    SubStep(p, s);
    match ps[0] {
      case Kept(c) => assert s[0] == c && s[1..] == rest;
      case Masked(_, _) => SubSkipsMark(p, rest);
    }
  }

  lemma {:induction false} MaskIsSub(p: Pattern, ps: seq<Piece>)
    ensures Shown(Mask(p, ps)) == Sub(p, Shown(ps)) && Spelled(Mask(p, ps)) == Spelled(ps)
    decreases |ps|
  {
    hide MatchLen, Sub, Shown, Spelled, Cover;
    if ps == [] {
      NoPieces(p);
    } else {
      var s := Shown(ps);
      var n := MatchLen(p, s);
      MaskHead(p, ps);
      if n > 0 {
        var k := Cover(ps, n);
        var head, rest := ps[..k], ps[k..];
        MatchTakesWholePieces(p, ps);
        MaskIsSub(p, rest);
        assert ps == head + rest;
        PiecesConcat(head, rest);
        PiecesConcat([Masked(p, head)], Mask(p, rest));
        OnePiece(Masked(p, head));
        assert s[n..] == Shown(rest);
      } else {
        MaskIsSub(p, ps[1..]);
        assert ps == [ps[0]] + ps[1..];
        PiecesConcat([ps[0]], ps[1..]);
        PiecesConcat([ps[0]], Mask(p, ps[1..]));
        OnePiece(ps[0]);
      }
    }
  }

  lemma NoPieces(p: Pattern)
    ensures Shown([]) == "" && Spelled([]) == "" && Mask(p, []) == [] && Sub(p, "") == ""
  {
  }

  lemma {:induction false} MaskedAreSecrets(p: Pattern, ps: seq<Piece>)
    requires AllSecrets(ps, Rank(p))
    ensures AllSecrets(Mask(p, ps), Rank(p) + 1)
    decreases |ps|
  {
    hide MatchLen, Shown, Spelled, Cover, Matches, Rank;
    if ps != [] {
      var s := Shown(ps);
      var n := MatchLen(p, s);
      assert ps[0] in ps && forall x | x in ps[1..] :: x in ps;
      if n > 0 {
        var k := Cover(ps, n);
        assert (forall x | x in ps[..k] :: x in ps) && forall x | x in ps[k..] :: x in ps;
        MaskedAreSecrets(p, ps[k..]);
        MatchTakesWholePieces(p, ps);
        PiecesConcat(ps[..k], ps[k..]);
        assert ps == ps[..k] + ps[k..] && s[..n] == Shown(ps[..k]);
        MatchSound(p, s);
      } else {
        MaskedAreSecrets(p, ps[1..]);
      }
    }
  }

  function Unmasked(s: string): seq<Piece> { seq(|s|, i requires 0 <= i < |s| => Kept(s[i])) }

  lemma {:induction false} UnmaskedIsText(s: string)
    ensures Spelled(Unmasked(s)) == s && Shown(Unmasked(s)) == s
  {
    if s != "" {
      assert Unmasked(s)[1..] == Unmasked(s[1..]);
      UnmaskedIsText(s[1..]);
    }
  }

  function MaskAll(ps: seq<Pattern>, s: string): seq<Piece> {
    if ps == [] then Unmasked(s) else Mask(ps[|ps| - 1], MaskAll(ps[..|ps| - 1], s))
  }

  lemma {:induction false} MaskAllIsSubAll(n: nat, s: string)
    requires n <= |PATTERNS|
    ensures var ps := MaskAll(PATTERNS[..n], s);
            Spelled(ps) == s && Shown(ps) == SubAll(PATTERNS[..n], s) && AllSecrets(ps, n)
  {
    hide Mask, Sub, Shown, Spelled;
    if n == 0 {
      UnmaskedIsText(s);
    } else {
      var before := PATTERNS[..n - 1];
      assert PATTERNS[..n][..n - 1] == before && PATTERNS[..n][n - 1] == PATTERNS[n - 1];
      assert Rank(PATTERNS[n - 1]) == n - 1;
      MaskAllIsSubAll(n - 1, s);
      MaskIsSub(PATTERNS[n - 1], MaskAll(before, s));
      MaskedAreSecrets(PATTERNS[n - 1], MaskAll(before, s));
    }
  }

  /** Redaction replaces stretches of the text by the marker and keeps every other character, in order, and
      replaces nothing that is not a secret. */
  lemma RedactMasksSecrets(s: string)
    ensures MasksSecretsOnly(s, Redact(s))
  {
    MaskAllIsSubAll(|PATTERNS|, s);
    assert PATTERNS[..|PATTERNS|] == PATTERNS;
    hide MaskAll, SubAll, AllSecrets;
    assert Spelled(MaskAll(PATTERNS, s)) == s;
  }

  // ---------- a text with one secret ----------

  /** Every secret in the text lies between two places. */
  ghost predicate Confined(s: string, from: nat, to: nat) {
    forall p, i, j | 0 <= i <= j <= |s| && Matches(p, s[i..j]) :: from <= i && j <= to
  }

  lemma ConfinedMatch(s: string, from: nat, to: nat, p: Pattern, k: nat)
    requires Confined(s, from, to) && k <= |s| && MatchLen(p, s[k..]) > 0
    ensures from <= k && k + MatchLen(p, s[k..]) <= to
  {
    hide MatchLen, Matches;
    var n := MatchLen(p, s[k..]);
    MatchSound(p, s[k..]);
    assert s[k..][..n] == s[k..k + n];
  }

  lemma SecretHead(p: Pattern, w: string)
    requires Matches(p, w)
    ensures w != "" && !IsSpace(w[0])
  {
    if p == Bearer {
      FoldedNotSpace(w);
    }
  }

  lemma ReplacedOnce(p: Pattern, a: string, w: string, b: string)
    requires Matches(p, w) && Confined(a + w + b, |a|, |a| + |w|)
    ensures Sub(p, a + w + b) == a + MARK + b && NoMatch(p, b)
  {
    hide MatchLen, Sub, Matches, Confined;
    var s, t := a + w + b, w + b;
    assert s == a + t && s[|a|..] == t && t[..|w|] == w;
    forall k | 0 <= k < |a| ensures MatchLen(p, (a + t)[k..]) == 0 {
      if MatchLen(p, s[k..]) > 0 {
        ConfinedMatch(s, |a|, |a| + |w|, p, k);
      }
    }
    SubSkips(p, a, t);
    MatchComplete(p, t, |w|);
    ConfinedMatch(s, |a|, |a| + |w|, p, |a|);
    SubStep(p, t);
    assert t[|w|..] == b;
    QuietBehind(p, a, w, b);
    SubIdle(p, b);
    assert a + (MARK + b) == a + MARK + b;
  }

  lemma QuietBehind(p: Pattern, a: string, w: string, b: string)
    requires Confined(a + w + b, |a|, |a| + |w|)
    ensures NoMatch(p, b)
  {
    hide MatchLen, Confined;
    var s := a + w + b;
    forall i | 0 <= i <= |b| ensures MatchLen(p, b[i..]) == 0 {
      assert b[i..] == s[|a| + |w| + i..];
      if MatchLen(p, b[i..]) > 0 {
        ConfinedMatch(s, |a|, |a| + |w|, p, |a| + |w| + i);
      }
    }
  }

  lemma ShortOfMark(u: string, head: string, marked: string, other: string)
    requires '[' !in u && u <= head + marked && marked != "" && marked[0] == '['
    ensures |u| <= |head| && u <= head + other
  {
    var t := head + marked;
    assert t[|head|] == '[' && forall k | 0 <= k < |u| :: t[k] == u[k] && u[k] in u;
    assert u == t[..|u|] == head[..|u|];
  }

  /** No match begins before the marker that was not there before. */
  lemma QuietBefore(q: Pattern, a: string, w: string, b: string, k: nat)
    requires w != "" && !IsSpace(w[0]) && Confined(a + w + b, |a|, |a| + |w|) && k < |a|
    ensures MatchLen(q, (a + MARK + b)[k..]) == 0
  {
    hide MatchLen, Confined, IsSpace;
    var s, r := a + w + b, a + MARK + b;
    var t := r[k..];
    assert t == a[k..] + (MARK + b) && s[k..] == a[k..] + (w + b) && t[|a| - k] == '[';
    if MatchLen(q, t) > 0 {
      var u: string;
      if q == Bearer {
        u := BearerWitness(t);
        ShortOfMark(u, a[k..], MARK + b, w + b);
        assert s[k..][|a| - k] == w[0];
      } else {
        u := KeyWitness(q, t);
        ShortOfMark(u, a[k..], MARK + b, w + b);
      }
      assert MatchLen(q, s[k..]) > 0;
      ConfinedMatch(s, |a|, |a| + |w|, q, k);
    }
  }

  lemma QuietAfterwards(q: Pattern, p: Pattern, a: string, w: string, b: string)
    requires Matches(p, w) && Confined(a + w + b, |a|, |a| + |w|)
    ensures NoMatch(q, a + MARK + b)
  {
    hide MatchLen, Confined, Matches, IsSpace;
    SecretHead(p, w);
    QuietBehind(q, a, w, b);
    var r := a + MARK + b;
    forall i | 0 <= i <= |r| ensures MatchLen(q, r[i..]) == 0 {
      if i < |a| {
        QuietBefore(q, a, w, b, i);
      } else if i < |a| + |MARK| {
        MarkHasNoMatch(q, i - |a|, b);
        assert r[i..] == MARK[i - |a|..] + b;
      } else {
        assert r[i..] == b[i - |a| - |MARK|..];
      }
    }
  }

  /** A text whose secrets all lie within one, which is of the first pattern that finds any: that one is
      replaced by the marker, and everything around it is kept. */
  lemma OneSecretMasked(p: Pattern, a: string, w: string, b: string)
    requires Matches(p, w) && Confined(a + w + b, |a|, |a| + |w|)
    requires forall q | Rank(q) < Rank(p) :: SecretFree(q, a + w + b)
    ensures Redact(a + w + b) == a + MARK + b
  {
    hide MatchLen, Sub, Matches, Confined, NoMatch, SecretFree;
    var s, r := a + w + b, a + MARK + b;
    var m := Rank(p);
    ReplacedOnce(p, a, w, b);
    forall q | q in PATTERNS[..m] ensures NoMatch(q, s) {
      NoMatchIff(q, s);
    }
    SubAllIdle(PATTERNS[..m], s);
    PatternAt(p);
    forall n | m < n <= |PATTERNS| ensures SubAll(PATTERNS[..n], s) == r {
      OnlyOnce(p, a, w, b, n);
    }
    assert PATTERNS[..|PATTERNS|] == PATTERNS;
  }

  lemma PatternAt(p: Pattern)
    ensures Rank(p) < |PATTERNS| && PATTERNS[Rank(p)] == p && forall q | q in PATTERNS[..Rank(p)] :: Rank(q) < Rank(p)
  {
  }

  lemma {:induction false} OnlyOnce(p: Pattern, a: string, w: string, b: string, n: nat)
    requires Matches(p, w) && Confined(a + w + b, |a|, |a| + |w|)
    requires SubAll(PATTERNS[..Rank(p)], a + w + b) == a + w + b
    requires Rank(p) < n <= |PATTERNS|
    ensures SubAll(PATTERNS[..n], a + w + b) == a + MARK + b
  {
    hide MatchLen, Sub, Matches, Confined, NoMatch, Rank;
    PatternAt(p);
    assert PATTERNS[..n][..n - 1] == PATTERNS[..n - 1] && PATTERNS[..n][n - 1] == PATTERNS[n - 1];
    if n - 1 == Rank(p) {
      ReplacedOnce(p, a, w, b);
    } else {
      OnlyOnce(p, a, w, b, n - 1);
      QuietAfterwards(PATTERNS[n - 1], p, a, w, b);
      SubIdle(PATTERNS[n - 1], a + MARK + b);
    }
  }

  /** The second pattern is subsumed by the first, and never fires after it. */
  lemma AnthropicNeverFires(s: string)
    ensures Sub(Anthropic, Sub(OpenAi, s)) == Sub(OpenAi, s)
  {
    var t := Sub(OpenAi, s);
    forall k | 0 <= k <= |t| ensures MatchLen(Anthropic, t[k..]) == 0 {
      SubClean(OpenAi, OpenAi, s, k);
      AnthropicIsOpenAi(t[k..]);
    }
    SubIdle(Anthropic, t);
  }

  lemma AnthropicIsOpenAi(s: string)
    ensures MatchLen(Anthropic, s) > 0 ==> MatchLen(OpenAi, s) > 0
  {
    if MatchLen(Anthropic, s) > 0 {
      MatchSound(Anthropic, s);
      MatchComplete(OpenAi, s, MatchLen(Anthropic, s));
    }
  }
}
