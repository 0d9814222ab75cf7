/** URL canonicalisation, over Python's `urlsplit` and `urlunsplit`. */
module Canonical {
  import opened Strings
  import opened Utf8
  import opened Wrappers
  import opened Sorting
  import opened QueryString

  /** Python's Unicode lower-casing, the characters it leaves alone, UTF-8 decoding with replacement
      characters, and the version-dependent check of bracketed hosts. */
  datatype Lib = Lib(lower: string -> string, low: char -> bool, decode: seq<Byte> -> string,
                     bracketOk: string -> bool)
  {
    ghost predicate Valid() { DecodesUtf8(decode) && forall s :: LowersWell(s) }

    /** Lower-casing gives characters it leaves alone and no new delimiters, leaves a text of such
        characters alone, and empties no other text. */
    ghost predicate LowersWell(s: string) {
      && (forall c | c in lower(s) :: low(c) && (Delimiter(c) ==> c in s))
      && (AllLow(s) ==> lower(s) == s)
      && (s != "" ==> lower(s) != "")
    }

    ghost predicate AllLow(s: string) { forall c | c in s :: low(c) }
  }

  /** The assumptions can be met. */
  lemma AssumptionsAreConsistent()
    ensures exists lib: Lib :: lib.Valid()
  {
    var decode := (b: seq<Byte>) => match Decode(b) case None => "" case Some(s) => s;
    var lib := Lib((s: string) => s, (c: char) => true, decode, (s: string) => true);
    forall s ensures DecodesBack(lib.decode, s) {
      DecodeEncode(s);
    }
    forall s ensures lib.LowersWell(s) {
    }
    assert lib.Valid();
  }

  predicate Unsafe(c: char) { c == '\t' || c == '\r' || c == '\n' }

  predicate Delimiter(c: char) {
    c == ':' || c == '/' || c == '?' || c == '#' || c == '@' || c == '[' || c == ']' || Unsafe(c)
  }

  // ---------- urlsplit ----------

  datatype Parts = Parts(scheme: string, netloc: string, path: string, query: string)

  function Is(d: char): char -> bool { (c: char) => c == d }

  function EndsNetloc(): char -> bool { (c: char) => c == '/' || c == '?' || c == '#' }

  /** `s.partition(d)[0]` and `s.partition(d)[2]`. */
  function Before(s: string, d: char): string { s[..Run(s, Is(d))] }

  function After(s: string, d: char): string {
    var n := Run(s, Is(d));
    if n == |s| then "" else s[n + 1..]
  }

  /** `s.rpartition(d)[2]` */
  function AfterLast(s: string, d: char): string {
    if s == "" || s[|s| - 1] == d then "" else AfterLast(s[..|s| - 1], d) + [s[|s| - 1]]
  }

  function LStripControls(s: string): string {
    if s != "" && s[0] <= ' ' then LStripControls(s[1..]) else s
  }

  function RemoveUnsafe(s: string): string {
    if s == "" then "" else (if Unsafe(s[0]) then "" else [s[0]]) + RemoveUnsafe(s[1..])
  }

  predicate IsLetter(c: char) { 'a' <= c <= 'z' || 'A' <= c <= 'Z' }

  predicate SchemeChar(c: char) { IsLetter(c) || IsDigit(c) || c == '+' || c == '-' || c == '.' }

  function LowerChar(c: char): char { if 'A' <= c <= 'Z' then (c as int + 0x20) as char else c }

  function AsciiLower(s: string): string { seq(|s|, i requires 0 <= i < |s| => LowerChar(s[i])) }

  /** The length of the scheme, 0 if there is none. */
  function SchemeLength(s: string): (n: nat)
    ensures n == 0 || n < |s|
  {
    var n := Run(s, Is(':'));
    if 0 < n < |s| && IsLetter(s[0]) && forall c | c in s[..n] :: SchemeChar(c) then n else 0
  }

  function SplitTail(scheme: string, netloc: string, s: string): Parts {
    var t := Before(s, '#');
    Parts(scheme, netloc, Before(t, '?'), After(t, '?'))
  }

  predicate BadBrackets(lib: Lib, netloc: string) {
    || (('[' in netloc) != (']' in netloc))
    || ('[' in netloc && ']' in netloc && !lib.bracketOk(netloc))
  }

  function SplitNetloc(lib: Lib, scheme: string, s: string): Option<Parts> {
    if |s| >= 2 && s[0] == '/' && s[1] == '/' then
      var n := Run(s[2..], EndsNetloc());
      var netloc := s[2..][..n];
      if BadBrackets(lib, netloc) then None else Some(SplitTail(scheme, netloc, s[2..][n..]))
    else Some(SplitTail(scheme, "", s))
  }

  /** `urlsplit`, `None` if it raises. */
  function Split(lib: Lib, url: string): Option<Parts> {
    var s := RemoveUnsafe(LStripControls(url));
    var n := SchemeLength(s);
    if n == 0 then SplitNetloc(lib, "", s) else SplitNetloc(lib, AsciiLower(s[..n]), s[n + 1..])
  }

  /** `_hostinfo`: the host, in brackets or not, and the text of the port. */
  function HostPort(netloc: string): (string, string) {
    var info := AfterLast(netloc, '@');
    if Run(info, Is('[')) < |info| then
      var bracketed := After(info, '[');
      (Before(bracketed, ']'), After(After(bracketed, ']'), ':'))
    else (Before(info, ':'), After(info, ':'))
  }

  /** `port`: `None` if it raises, and 0 if there is none, which the canonicaliser treats alike. */
  function PortOf(s: string): Option<nat> {
    if s == "" then Some(0)
    else if (forall c | c in s :: IsDigit(c)) && Number(s) <= 65535 then Some(Number(s))
    else None
  }

  // ---------- canonicalize ----------

  const TRACK_EXACT: set<string> := {
    "gclid", "fbclid", "ref", "ref_src", "_hsenc", "_hsmi", "igshid", "vero_id", "mkt_tok", "yclid"
  }

  predicate Unwanted(lib: Lib, name: string) {
    var key := lib.lower(name);
    key in TRACK_EXACT || "utm_" <= key || "mc_" <= key
  }

  function Wanted(lib: Lib, params: seq<Param>): seq<Param> {
    if params == [] then []
    else (if Unwanted(lib, params[0].0) then [] else [params[0]]) + Wanted(lib, params[1..])
  }

  predicate Web(scheme: string) { scheme == "http" || scheme == "https" }

  /** 0 for the scheme's default port. */
  function Effective(scheme: string, port: nat): nat {
    if (scheme == "http" && port == 80) || (scheme == "https" && port == 443) then 0 else port
  }

  /** One slash for each run of slashes, in one pass. */
  function Collapse(p: string): string {
    if p == "" then ""
    else if |p| >= 2 && p[0] == '/' && p[1] == '/' then Collapse(p[1..])
    else [p[0]] + Collapse(p[1..])
  }

  function TrimSlash(p: string): string {
    if p != "/" && p != "" && p[|p| - 1] == '/' then p[..|p| - 1] else p
  }

  function NormPath(p: string): string { TrimSlash(Collapse(if p == "" then "/" else p)) }

  /** What a canonical URL is made of; a port of 0 is none. */
  datatype Key = Key(scheme: string, host: string, port: nat, path: string, params: seq<Param>)

  /** `canonicalize` raises, answers with the empty string, or prints a key. */
  datatype Outcome = Raises | NoUrl | Url(key: Key)

  function NetlocOf(host: string, port: nat): string {
    if port == 0 then host else host + (":" + Decimal(port))
  }

  function KeyWith(lib: Lib, scheme: string, netloc: string, path: string, params: seq<Param>): Outcome {
    var (name, portText) := HostPort(netloc);
    var host := lib.lower(name);
    if host == "" then NoUrl
    else
      match PortOf(portText)
      case None => Raises
      case Some(port) => Url(Key(scheme, host, Effective(scheme, port), path, params))
  }

  function ParamsOf(lib: Lib, query: string): seq<Param> { Wanted(lib, ParseQsl(query, lib.decode)) }

  function KeyFrom(lib: Lib, p: Parts): Outcome {
    if !Web(p.scheme) then NoUrl
    else KeyWith(lib, p.scheme, p.netloc, NormPath(p.path), StableSort(ParamsOf(lib, p.query), ParamLe))
  }

  function KeyOf(lib: Lib, url: string): Outcome {
    match Split(lib, url) case None => Raises case Some(p) => KeyFrom(lib, p)
  }

  /** `urlunsplit`, with a host and no fragment. */
  function PrintParts(scheme: string, netloc: string, path: string, query: string): string {
    scheme + (":" + ("//" + (netloc + (path + if query == "" then "" else "?" + query))))
  }

  function Print(k: Key): string {
    PrintParts(k.scheme, NetlocOf(k.host, k.port), k.path, UrlEncode(k.params))
  }

  /** `None` if `canonicalize` raises. */
  function CanonicalOf(lib: Lib, url: string): Option<string> {
    match KeyOf(lib, url) case Raises => None case NoUrl => Some("") case Url(k) => Some(Print(k))
  }

  method CollapseSlashes(path: string) returns (p: string)
    ensures p == Collapse(path)
  {
    p := path;
    while Find(p, "//", 0) >= 0
      invariant Collapse(p) == Collapse(path)
      decreases |p|
    {
      CollapseReplaced(p);
      ReplaceShrinks(p, Find(p, "//", 0));
      p := ReplaceAll(p, "//", "/");
    }
    CollapseFixed(p);
  }

  method Canonicalize(lib: Lib, url: string) returns (r: Option<string>)
    ensures r == CanonicalOf(lib, url)
  {
    hide Split, HostPort, PortOf, Collapse, StableSort, ParamsOf, PrintParts, UrlEncode;
    var parts := Split(lib, url);
    if parts.None? {
      return None;
    }
    var scheme := parts.value.scheme;
    if scheme != "http" && scheme != "https" {
      return Some("");
    }
    var (name, portText) := HostPort(parts.value.netloc);
    var host := lib.lower(name);
    if host == "" {
      return Some("");
    }
    var port := PortOf(portText);
    if port.None? {
      return None;
    }
    var netloc := host;
    if port.value != 0 && !((scheme == "http" && port.value == 80) || (scheme == "https" && port.value == 443)) {
      netloc := host + (":" + Decimal(port.value));
    }
    var path := CollapseSlashes(if parts.value.path == "" then "/" else parts.value.path);
    if path != "/" && path != "" && path[|path| - 1] == '/' {
      path := path[..|path| - 1];
    }
    var params := StableSort(ParamsOf(lib, parts.value.query), ParamLe);
    return Some(PrintParts(scheme, netloc, path, UrlEncode(params)));
  }

  // ---------- slashes ----------

  function Glue(y: string): string { if y != "" && y[0] == '/' then y else "/" + y }

  predicate Slashed(s: string) { s != "" && s[0] == '/' }

  lemma CollapseKeepsHead(p: string)
    ensures Slashed(Collapse(p)) <==> Slashed(p)
    ensures Collapse(p) == "" <==> p == ""
  {
    if |p| >= 2 && p[0] == '/' && p[1] == '/' {
      CollapseKeepsHead(p[1..]);
    }
  }

  lemma CollapseSlash(x: string)
    ensures Collapse("/" + x) == Glue(Collapse(x))
  {
    CollapseKeepsHead(x);
    assert ("/" + x)[1..] == x && ("/" + x)[0] == '/';
    assert x != "" ==> ("/" + x)[1] == x[0];
  }

  lemma CollapseOther(c: char, x: string)
    requires c != '/'
    ensures Collapse([c] + x) == [c] + Collapse(x)
  {
    assert ([c] + x)[1..] == x && ([c] + x)[0] == c;
  }

  lemma {:induction false} CollapseReplaced(p: string)
    ensures Collapse(ReplaceAll(p, "//", "/")) == Collapse(p)
    decreases |p|
  {
    if |p| >= 2 {
      hide Collapse;
      if p[..2] == "//" {
        assert p == "/" + ("/" + p[2..]);
        CollapseReplaced(p[2..]);
        CollapseSlash("/" + p[2..]);
        CollapseSlash(p[2..]);
        CollapseSlash(ReplaceAll(p[2..], "//", "/"));
      } else {
        CollapseReplaced(p[1..]);
        assert p == [p[0]] + p[1..];
        if p[0] == '/' {
          CollapseSlash(p[1..]);
          CollapseSlash(ReplaceAll(p[1..], "//", "/"));
        } else {
          CollapseOther(p[0], p[1..]);
          CollapseOther(p[0], ReplaceAll(p[1..], "//", "/"));
        }
      }
    }
  }

  lemma {:induction false} ReplaceNotLonger(p: string)
    ensures |ReplaceAll(p, "//", "/")| <= |p|
    decreases |p|
  {
    if |p| >= 2 {
      if p[..2] == "//" {
        ReplaceNotLonger(p[2..]);
      } else {
        ReplaceNotLonger(p[1..]);
      }
    }
  }

  lemma {:induction false} ReplaceShrinks(p: string, i: int)
    requires OccursAt(p, "//", i)
    ensures |ReplaceAll(p, "//", "/")| < |p|
    decreases |p|
  {
    if p[..2] == "//" {
      ReplaceNotLonger(p[2..]);
    } else {
      assert i != 0;
      assert p[1..][i - 1..i - 1 + 2] == p[i..i + 2];
      ReplaceShrinks(p[1..], i - 1);
    }
  }

  lemma {:induction false} CollapseFixed(p: string)
    requires forall k :: 0 <= k ==> !OccursAt(p, "//", k)
    ensures Collapse(p) == p
  {
    if p != "" {
      assert !OccursAt(p, "//", 0);
      assert p == [p[0]] + p[1..];
      forall k | 0 <= k ensures !OccursAt(p[1..], "//", k) {
        OccursShift([p[0]], p[1..], "//", k + 1);
        assert !OccursAt(p, "//", k + 1);
      }
      CollapseFixed(p[1..]);
    }
  }

  // ---------- paths as lists of segments ----------

  /** The non-empty segments of a path. */
  function Segments(p: string): seq<string>
    decreases |p|
  {
    if p == "" then []
    else if p[0] == '/' then Segments(p[1..])
    else
      var n := Run(p, Is('/'));
      [p[..n]] + Segments(p[n..])
  }

  function JoinSegments(ss: seq<string>): string {
    if ss == [] then "" else ("/" + ss[0]) + JoinSegments(ss[1..])
  }

  function PathOf(ss: seq<string>): string { if ss == [] then "/" else JoinSegments(ss) }

  ghost predicate ProperSegments(ss: seq<string>) { forall s | s in ss :: s != "" && Free(s, Is('/')) }

  lemma SegmentsFirst(s: string, rest: string)
    requires s != "" && Free(s, Is('/')) && (rest == "" || Slashed(rest))
    ensures Segments(s + rest) == [s] + Segments(rest)
  {
    RunUpTo(s, rest, Is('/'));
    assert (s + rest)[..|s|] == s && (s + rest)[|s|..] == rest;
    assert (s + rest)[0] == s[0] && s[0] in s;
  }

  lemma {:induction false} SegmentsProper(p: string)
    ensures ProperSegments(Segments(p))
    decreases |p|
  {
    if p != "" {
      if p[0] == '/' {
        SegmentsProper(p[1..]);
      } else {
        SegmentsProper(p[Run(p, Is('/'))..]);
      }
    }
  }

  lemma {:induction false} SegmentsOfJoined(ss: seq<string>)
    requires ProperSegments(ss)
    ensures Segments(JoinSegments(ss)) == ss
    ensures JoinSegments(ss) == "" || Slashed(JoinSegments(ss))
  {
    if ss != [] {
      var s, rest := ss[0], JoinSegments(ss[1..]);
      SegmentsOfJoined(ss[1..]);
      assert s in ss;
      SegmentsFirst(s, rest);
      assert ("/" + s) + rest == "/" + (s + rest);
      assert ss == [s] + ss[1..];
    }
  }

  lemma {:induction false} CollapseSegment(s: string, rest: string)
    requires Free(s, Is('/'))
    ensures Collapse(s + rest) == s + Collapse(rest)
  {
    if s == "" {
      assert s + rest == rest;
    } else {
      assert s[0] in s;
      assert s + rest == [s[0]] + (s[1..] + rest);
      CollapseSegment(s[1..], rest);
      CollapseOther(s[0], s[1..] + rest);
    }
  }

  function TrailingSlash(p: string): string { if p != "" && p[|p| - 1] == '/' then "/" else "" }

  lemma CollapsedFirst(s: string, rest: string)
    requires s != "" && Free(s, Is('/')) && (rest == "" || Slashed(rest))
    ensures Collapse("/" + (s + rest)) == ("/" + s) + Collapse(rest)
    ensures Segments("/" + (s + rest)) == [s] + Segments(rest)
  {
    CollapseSegment(s, rest);
    CollapseSlash(s + rest);
    SegmentsFirst(s, rest);
    assert s[0] in s && (s + Collapse(rest))[0] == s[0];
    assert "/" + (s + Collapse(rest)) == ("/" + s) + Collapse(rest);
  }

  lemma JoinFirst(s: string, ss: seq<string>)
    ensures JoinSegments([s] + ss) == ("/" + s) + JoinSegments(ss)
  {
    assert ([s] + ss)[1..] == ss;
  }

  lemma TrailingFirst(s: string, rest: string)
    requires s != "" && Free(s, Is('/'))
    ensures TrailingSlash("/" + (s + rest)) == if rest == "" then "" else TrailingSlash(rest)
  {
    var p := "/" + (s + rest);
    if rest == "" {
      assert s[|s| - 1] in s && p[|p| - 1] == s[|s| - 1];
    } else {
      assert p[|p| - 1] == rest[|rest| - 1];
    }
  }

  lemma CollapsedStep(s: string, rest: string)
    requires s != "" && Free(s, Is('/')) && (rest == "" || Slashed(rest))
    requires rest != "" ==> Collapse(rest) == JoinSegments(Segments(rest)) + TrailingSlash(rest)
    ensures var p := "/" + (s + rest); Collapse(p) == JoinSegments(Segments(p)) + TrailingSlash(p)
  {
    CollapsedFirst(s, rest);
    NoSegments();
    JoinFirst(s, Segments(rest));
    TrailingFirst(s, rest);
    hide Collapse, Segments, JoinSegments, TrailingSlash;
    var j, t := JoinSegments(Segments(rest)), TrailingSlash(rest);
    if rest == "" {
      assert ("/" + s) + "" == "/" + s;
    } else {
      assert ("/" + s) + (j + t) == (("/" + s) + j) + t;
    }
  }

  lemma NoSegments()
    ensures Segments("") == [] && Collapse("") == "" && JoinSegments([]) == "" && TrailingSlash("") == ""
  {
  }

  /** Collapsing keeps the segments, and a trailing slash. */
  lemma {:induction false} CollapsedIsJoined(p: string)
    requires Slashed(p)
    ensures Collapse(p) == JoinSegments(Segments(p)) + TrailingSlash(p)
    decreases |p|
  {
    var x := p[1..];
    assert p == "/" + x;
    if x == "" {
      NoSegments();
      CollapseSlash("");
    } else if x[0] == '/' {
      CollapsedIsJoined(x);
      CollapseSlash(x);
      CollapseKeepsHead(x);
      assert p[|p| - 1] == x[|x| - 1];
    } else {
      var n := Run(x, Is('/'));
      var s, rest := x[..n], x[n..];
      assert x == s + rest;
      if rest != "" {
        CollapsedIsJoined(rest);
      }
      CollapsedStep(s, rest);
    }
  }

  /** The canonical path lists the non-empty segments, whatever slashes stood between them. */
  lemma NormPathIsSegments(p: string)
    requires p == "" || Slashed(p)
    ensures NormPath(p) == PathOf(Segments(p))
    ensures Segments(NormPath(p)) == Segments(p)
  {
    hide Segments, Collapse, JoinSegments, ProperSegments;
    var q := if p == "" then "/" else p;
    CollapsedIsJoined(q);
    EmptySegments();
    var ss := Segments(p);
    SegmentsProper(p);
    SegmentsOfJoined(ss);
    var j := JoinSegments(ss);
    if ss == [] {
      assert "" + "/" == "/" && "" + "" == "";
      CollapseNonempty(q);
    } else {
      JoinedEnds(ss);
      assert (j + "/")[..|j|] == j && j + "" == j;
    }
  }

  lemma EmptySegments()
    ensures Segments("/") == Segments("") == [] && JoinSegments([]) == ""
  {
  }

  lemma CollapseNonempty(q: string)
    requires q != ""
    ensures Collapse(q) != ""
  {
    CollapseKeepsHead(q);
  }

  /** A joined path does not end in a slash. */
  lemma {:induction false} JoinedEnds(ss: seq<string>)
    requires ss != [] && ProperSegments(ss)
    ensures var j := JoinSegments(ss); |j| >= 2 && j[|j| - 1] != '/'
  {
    var s := ss[0];
    assert s in ss;
    assert s[|s| - 1] in s;
    if |ss| > 1 {
      assert forall t | t in ss[1..] :: t in ss;
      JoinedEnds(ss[1..]);
    } else {
      assert JoinSegments(ss[1..]) == "";
    }
  }

  lemma NormPathIff(p: string, q: string)
    requires (p == "" || Slashed(p)) && (q == "" || Slashed(q))
    ensures NormPath(p) == NormPath(q) <==> Segments(p) == Segments(q)
  {
    NormPathIsSegments(p);
    NormPathIsSegments(q);
    hide NormPath, Segments;
  }

  // ---------- splitting a printed URL ----------

  ghost predicate CleanNetloc(n: string) {
    forall c | c in n :: c != '/' && c != '?' && c != '#' && c != '@' && !Unsafe(c)
  }

  ghost predicate CleanPath(p: string) {
    Slashed(p) && forall c | c in p :: c != '?' && c != '#' && !Unsafe(c)
  }

  ghost predicate CleanQuery(q: string) {
    forall c | c in q :: c != '#' && !Unsafe(c)
  }

  ghost predicate NoUnsafe(s: string) { forall c | c in s :: !Unsafe(c) }

  lemma {:induction false} RemoveUnsafeFixed(s: string)
    requires NoUnsafe(s)
    ensures RemoveUnsafe(s) == s
  {
    if s != "" {
      assert s[0] in s && s == [s[0]] + s[1..];
      RemoveUnsafeFixed(s[1..]);
    }
  }

  lemma {:induction false} RemoveUnsafeFree(s: string)
    ensures NoUnsafe(RemoveUnsafe(s))
  {
    if s != "" {
      RemoveUnsafeFree(s[1..]);
    }
  }

  /** Cutting at the first `d`. */
  lemma Cut(a: string, d: char, b: string)
    requires Free(a, Is(d))
    ensures Before(a + ([d] + b), d) == a && After(a + ([d] + b), d) == b
    ensures Before(a, d) == a && After(a, d) == ""
  {
    RunUpTo(a, [d] + b, Is(d));
    RunUpTo(a, "", Is(d));
    assert a + "" == a;
    var s := a + ([d] + b);
    assert s[..|a|] == a && s[|a| + 1..] == b;
  }

  /** A path as it may stand behind a netloc. */
  ghost predicate PathAfterNetloc(p: string) { p == "" || CleanPath(p) }

  lemma SplitTailPrinted(scheme: string, n: string, path: string, query: string)
    requires PathAfterNetloc(path) && CleanQuery(query)
    ensures SplitTail(scheme, n, path + if query == "" then "" else "?" + query) == Parts(scheme, n, path, query)
  {
    var tail := if query == "" then "" else "?" + query;
    var s := path + tail;
    Cut(path, '?', query);
    assert Free(s, Is('#'));
    Cut(s, '#', "");
    assert "?" + query == ['?'] + query;
    assert query == "" ==> s == path;
  }

  lemma SplitNetlocPrinted(lib: Lib, scheme: string, n: string, r: string)
    requires Free(n, EndsNetloc()) && (r == "" || EndsNetloc()(r[0]))
    ensures SplitNetloc(lib, scheme, "//" + (n + r))
            == if BadBrackets(lib, n) then None else Some(SplitTail(scheme, n, r))
  {
    hide SplitTail, BadBrackets;
    var s := "//" + (n + r);
    RunUpTo(n, r, EndsNetloc());
    assert s[2..] == n + r && (n + r)[..|n|] == n && (n + r)[|n|..] == r;
  }

  /** The spelling of a scheme: a letter, then letters, digits and `+-.`. */
  predicate SchemeText(s: string) { s != "" && IsLetter(s[0]) && forall c | c in s :: SchemeChar(c) }

  lemma SchemePrinted(scheme: string, r: string)
    requires SchemeText(scheme)
    ensures var s := scheme + (":" + r);
            && SchemeLength(s) == |scheme| && s[..|scheme|] == scheme && s[|scheme| + 1..] == r
            && scheme != "" && s[0] > ' ' && NoUnsafe(scheme) && ':' !in scheme
  {
    var s := scheme + (":" + r);
    assert !SchemeChar(':') && Free(scheme, Is(':'));
    RunUpTo(scheme, ":" + r, Is(':'));
    assert s[..|scheme|] == scheme && s[|scheme| + 1..] == r && s[0] == scheme[0];
  }

  lemma WebIsSchemeText(scheme: string)
    requires Web(scheme)
    ensures SchemeText(scheme) && AsciiLower(scheme) == scheme
  {
    assert forall c | c in scheme :: 'a' <= c <= 'z';
  }

  /** Any spelling of the scheme is read as its lower case, any netloc as it stands. */
  lemma SplitWritten(lib: Lib, scheme: string, n: string, path: string, query: string)
    requires SchemeText(scheme) && NoUnsafe(n) && Free(n, EndsNetloc()) && PathAfterNetloc(path) && CleanQuery(query)
    ensures Split(lib, PrintParts(scheme, n, path, query))
            == if BadBrackets(lib, n) then None else Some(Parts(AsciiLower(scheme), n, path, query))
  {
    hide RemoveUnsafe, SchemeLength, SplitNetloc, SplitTail, BadBrackets, AsciiLower, SchemeText;
    var tail := path + if query == "" then "" else "?" + query;
    var r := "//" + (n + tail);
    var s := PrintParts(scheme, n, path, query);
    assert s == scheme + (":" + r);
    SchemePrinted(scheme, r);
    assert LStripControls(s) == s;
    PrintedNoUnsafe(scheme, n, path, query);
    RemoveUnsafeFixed(PrintParts(scheme, n, path, query));
    SplitNetlocPrinted(lib, AsciiLower(scheme), n, tail) by {
      assert tail == "" || EndsNetloc()(tail[0]);
    }
    SplitTailPrinted(AsciiLower(scheme), n, path, query);
  }

  lemma PrintedNoUnsafe(scheme: string, n: string, path: string, query: string)
    requires NoUnsafe(scheme) && NoUnsafe(n) && PathAfterNetloc(path) && CleanQuery(query)
    ensures NoUnsafe(PrintParts(scheme, n, path, query))
  {
  }

  lemma SplitPrinted(lib: Lib, scheme: string, n: string, path: string, query: string)
    requires Web(scheme) && CleanNetloc(n) && CleanPath(path) && CleanQuery(query)
    ensures Split(lib, PrintParts(scheme, n, path, query))
            == if BadBrackets(lib, n) then None else Some(Parts(scheme, n, path, query))
  {
    WebIsSchemeText(scheme);
    SplitWritten(lib, scheme, n, path, query);
  }

  // ---------- the parts of any URL ----------

  lemma BeforeOf(s: string, d: char)
    ensures forall c | c in Before(s, d) :: c in s && c != d
    ensures forall c | c in After(s, d) :: c in s
  {
    var n := Run(s, Is(d));
    assert forall k | 0 <= k < n :: s[k] != d by {
      assert forall k | 0 <= k < n :: !Is(d)(s[k]);
    }
  }

  lemma {:induction false} AfterLastOf(s: string, d: char)
    ensures forall c | c in AfterLast(s, d) :: c in s && c != d
  {
    if s != "" && s[|s| - 1] != d {
      AfterLastOf(s[..|s| - 1], d);
    }
  }

  lemma {:induction false} AfterLastFixed(s: string, d: char)
    requires d !in s
    ensures AfterLast(s, d) == s
  {
    if s != "" {
      assert s == s[..|s| - 1] + [s[|s| - 1]];
      AfterLastFixed(s[..|s| - 1], d);
    }
  }

  lemma SuffixNoUnsafe(s: string, n: nat)
    requires n <= |s| && NoUnsafe(s)
    ensures NoUnsafe(s[n..])
  {
    assert forall c | c in s[n..] :: c in s;
  }

  /** The netloc, the path and the query keep clear of the delimiters that end them, and a path after a
      netloc starts with a slash, if it is not empty. */
  ghost predicate CleanParts(p: Parts) {
    && CleanQuery(p.query)
    && (forall c | c in p.netloc :: c != '/' && c != '?' && c != '#' && !Unsafe(c))
    && (forall c | c in p.path :: c != '?' && c != '#' && !Unsafe(c))
    && (p.netloc != "" ==> p.path == "" || Slashed(p.path))
  }

  lemma PartsAreClean(lib: Lib, url: string)
    requires Split(lib, url).Some?
    ensures CleanParts(Split(lib, url).value)
  {
    hide RemoveUnsafe, SchemeLength, AsciiLower, SplitNetloc, CleanParts, NoUnsafe;
    var s := RemoveUnsafe(LStripControls(url));
    RemoveUnsafeFree(LStripControls(url));
    var n := SchemeLength(s);
    if n == 0 {
      NetlocIsClean(lib, "", s);
    } else {
      SuffixNoUnsafe(s, n + 1);
      NetlocIsClean(lib, AsciiLower(s[..n]), s[n + 1..]);
    }
  }

  lemma NetlocIsClean(lib: Lib, scheme: string, s: string)
    requires NoUnsafe(s) && SplitNetloc(lib, scheme, s).Some?
    ensures CleanParts(SplitNetloc(lib, scheme, s).value)
  {
    hide BadBrackets;
    if |s| >= 2 && s[0] == '/' && s[1] == '/' {
      var r := s[2..];
      var n := Run(r, EndsNetloc());
      assert forall k | 0 <= k < n :: !EndsNetloc()(r[k]);
      assert forall k | 0 <= k < |r| :: r[k] in s;
      TailIsClean(scheme, r[..n], r[n..]);
      assert n < |r| ==> EndsNetloc()(r[n]);
    } else {
      TailIsClean(scheme, "", s);
    }
  }

  lemma TailIsClean(scheme: string, netloc: string, s: string)
    requires NoUnsafe(s)
    ensures var p := SplitTail(scheme, netloc, s);
            && CleanQuery(p.query) && (forall c | c in p.path :: c != '?' && c != '#' && !Unsafe(c))
            && (s == "" || s[0] == '/' || s[0] == '?' || s[0] == '#' ==> p.path == "" || Slashed(p.path))
  {
    BeforeOf(s, '#');
    var t := Before(s, '#');
    BeforeOf(t, '?');
    hide Run;
    assert t == s[..|t|];
    var q := Before(t, '?');
    assert q == t[..|q|];
  }

  lemma HostIsClean(netloc: string)
    ensures var h := HostPort(netloc).0;
            (forall c | c in h :: c in netloc && c != '@') && !('[' in h && ']' in h)
  {
    var info := AfterLast(netloc, '@');
    AfterLastOf(netloc, '@');
    BeforeOf(info, '[');
    BeforeOf(info, ':');
    var bracketed := After(info, '[');
    BeforeOf(bracketed, ']');
    if Run(info, Is('[')) == |info| {
      assert forall k | 0 <= k < |info| :: !Is('[')(info[k]);
    }
    hide AfterLast, Run, After;
  }

  // ---------- keys of any URL are normal ----------

  ghost predicate NormalRest(lib: Lib, k: Key) {
    && Web(k.scheme) && CleanPath(k.path) && NormPath(k.path) == k.path
    && StableSort(Wanted(lib, k.params), ParamLe) == k.params
  }

  ghost predicate CleanHost(lib: Lib, h: string) {
    h != "" && lib.AllLow(h) && CleanNetloc(h) && !('[' in h && ']' in h)
  }

  lemma {:induction false} CollapseChars(p: string)
    ensures forall c | c in Collapse(p) :: c in p
  {
    if p != "" {
      CollapseChars(p[1..]);
      assert p[0] in p && forall c | c in p[1..] :: c in p;
    }
  }

  lemma NormPathIsNormal(p: string)
    requires p == "" || Slashed(p)
    requires forall c | c in p :: c != '?' && c != '#' && !Unsafe(c)
    ensures CleanPath(NormPath(p)) && NormPath(NormPath(p)) == NormPath(p)
  {
    var q := if p == "" then "/" else p;
    var c := Collapse(q);
    CollapseChars(q);
    CollapseKeepsHead(q);
    assert Slashed(NormPath(p)) && forall c | c in NormPath(p) :: c in q;
    NormPathIsSegments(p);
    NormPathIff(NormPath(p), p);
  }

  lemma {:induction false} WantedFixed(lib: Lib, ps: seq<Param>)
    requires forall p | p in ps :: !Unwanted(lib, p.0)
    ensures Wanted(lib, ps) == ps
  {
    hide Unwanted;
    if ps != [] {
      assert ps[0] in ps && ps == [ps[0]] + ps[1..];
      WantedFixed(lib, ps[1..]);
    }
  }

  lemma {:induction false} WantedAre(lib: Lib, ps: seq<Param>)
    ensures forall p | p in Wanted(lib, ps) :: !Unwanted(lib, p.0)
  {
    hide Unwanted;
    if ps != [] {
      WantedAre(lib, ps[1..]);
    }
  }

  lemma SortedWantedIsNormal(lib: Lib, all: seq<Param>)
    ensures var ps := StableSort(Wanted(lib, all), ParamLe);
            StableSort(Wanted(lib, ps), ParamLe) == ps
  {
    hide Unwanted, ParamLe, StableSort, Wanted;
    var ws := Wanted(lib, all);
    var ps := StableSort(ws, ParamLe);
    WantedAre(lib, all);
    ParamLeOrders();
    StableSortProperties(ws, ParamLe);
    forall p | p in ps ensures !Unwanted(lib, p.0) {
      assert p in multiset(ps) && p in multiset(ws);
    }
    WantedFixed(lib, ps);
    SortedStays(ps);
  }

  lemma LoweredIsClean(lib: Lib, h: string)
    requires lib.Valid() && CleanNetloc(h) && !('[' in h && ']' in h) && lib.lower(h) != ""
    ensures CleanHost(lib, lib.lower(h))
  {
    hide DecodesUtf8, Unsafe;
    var l := lib.lower(h);
    assert lib.LowersWell(h);
    assert forall c | c in l :: lib.low(c) && (Delimiter(c) ==> c in h);
    assert Delimiter('[') && Delimiter(']');
    forall c | c in l ensures c != '/' && c != '?' && c != '#' && c != '@' && !Unsafe(c) {
      assert Delimiter(c) ==> c in h;
    }
  }

  /** The key of any URL: its path and parameters are their own canonical forms, its host is
      lower-cased and free of delimiters but colons and one kind of bracket, its port is not the
      default. */
  lemma KeyIsNormal(lib: Lib, url: string)
    requires lib.Valid() && KeyOf(lib, url).Url?
    ensures var k := KeyOf(lib, url).key;
            NormalRest(lib, k) && CleanHost(lib, k.host) && k.port <= 65535 && Effective(k.scheme, k.port) == k.port
  {
    var p := Split(lib, url).value;
    PartsAreClean(lib, url);
    SortedWantedIsNormal(lib, ParseQsl(p.query, lib.decode));
    assert p.netloc != "" by { NoHost(lib); }
    NormPathIsNormal(p.path);
    HostIsClean(p.netloc);
    assert CleanNetloc(HostPort(p.netloc).0);
    LoweredIsClean(lib, HostPort(p.netloc).0);
    hide Split, HostPort, NormPath, StableSort, Wanted, ParseQsl, CleanPath, CleanHost, Lib.Valid;
  }

  lemma NoHost(lib: Lib)
    requires lib.Valid()
    ensures lib.lower(HostPort("").0) == ""
  {
    assert lib.LowersWell("") && lib.AllLow("");
  }

  // ---------- the key of a printed URL ----------

  lemma ReKey(lib: Lib, k: Key, n: string)
    requires lib.Valid() && NormalRest(lib, k) && CleanNetloc(n)
    ensures KeyOf(lib, PrintParts(k.scheme, n, k.path, UrlEncode(k.params)))
            == if BadBrackets(lib, n) then Raises else KeyWith(lib, k.scheme, n, k.path, k.params)
  {
    var q := UrlEncode(k.params);
    EncodedChars(k.params);
    assert CleanQuery(q);
    SplitPrinted(lib, k.scheme, n, k.path, q);
    ParseEncoded(k.params, lib.decode);
    hide Split, PrintParts, UrlEncode, ParseQsl, BadBrackets, StableSort, KeyWith, Wanted, NormPath;
  }

  ghost predicate NamedPort(scheme: string, n: string, x: string, v: nat) {
    && n == x + (":" + Decimal(v)) && x != "" && ':' !in x
    && 1 <= v <= 65535 && Effective(scheme, v) == v
  }

  /** The netlocs that are read back as they were printed: without brackets, and either without a
      colon or a host, a colon and a port that is in range, not the default, and has no leading zero. */
  ghost predicate Reparses(scheme: string, n: string) {
    '[' !in n && ']' !in n && (':' !in n || exists x, v :: NamedPort(scheme, n, x, v))
  }

  lemma PortOfDecimal(v: nat)
    ensures PortOf(Decimal(v)) == if v <= 65535 then Some(v) else None
  {
    NumberOfDecimal(v);
  }

  lemma NetlocReparses(scheme: string, n: string)
    requires n != "" && '[' !in n && ']' !in n
    ensures var x, p := Before(n, ':'), PortOf(After(n, ':'));
            x != "" && p.Some? && NetlocOf(x, Effective(scheme, p.value)) == n <==> Reparses(scheme, n)
  {
    var x, p := Before(n, ':'), PortOf(After(n, ':'));
    BeforeOf(n, ':');
    if ':' !in n {
      Cut(n, ':', "");
    } else {
      if Reparses(scheme, n) {
        var y, v :| NamedPort(scheme, n, y, v);
        Cut(y, ':', Decimal(v));
        assert ":" + Decimal(v) == [':'] + Decimal(v);
        PortOfDecimal(v);
      }
      if x != "" && p.Some? && NetlocOf(x, Effective(scheme, p.value)) == n {
        assert NamedPort(scheme, n, x, p.value);
      }
    }
  }

  lemma HostPortPlain(n: string)
    requires '@' !in n && '[' !in n
    ensures HostPort(n) == (Before(n, ':'), After(n, ':'))
  {
    AfterLastFixed(n, '@');
    Cut(n, '[', "");
  }

  lemma PrefixLow(lib: Lib, host: string, x: string)
    requires lib.Valid() && lib.AllLow(host) && x <= host
    ensures lib.lower(x) == x
  {
    assert forall c | c in x :: c in host;
    assert lib.LowersWell(x) && lib.AllLow(x);
  }

  /** The host read back from a printed netloc is a prefix of the host printed. */
  lemma HostPrefix(host: string, port: nat)
    ensures Before(NetlocOf(host, port), ':') <= host
  {
    var n := NetlocOf(host, port);
    if port != 0 {
      assert Is(':')(n[|host|]);
    }
  }

  lemma NetlocChars(lib: Lib, host: string, port: nat)
    requires CleanHost(lib, host)
    ensures var n := NetlocOf(host, port);
            && n != "" && CleanNetloc(n) && ('[' in n <==> '[' in host) && (']' in n <==> ']' in host)
  {
    hide Decimal;
    assert !IsDigit('[') && !IsDigit(']') && forall c | IsDigit(c) :: !Delimiter(c);
  }

  lemma Readback(lib: Lib, k: Key)
    requires lib.Valid() && CleanHost(lib, k.host)
    requires var n := NetlocOf(k.host, k.port); '[' !in n && ']' !in n
    ensures var n := NetlocOf(k.host, k.port);
            var x := Before(n, ':');
            KeyWith(lib, k.scheme, n, k.path, k.params)
            == if x == "" then NoUrl
               else
                 match PortOf(After(n, ':'))
                 case None => Raises
                 case Some(v) => Url(Key(k.scheme, x, Effective(k.scheme, v), k.path, k.params))
  {
    var n := NetlocOf(k.host, k.port);
    NetlocChars(lib, k.host, k.port);
    HostPortPlain(n);
    HostPrefix(k.host, k.port);
    PrefixLow(lib, k.host, Before(n, ':'));
    hide NetlocOf, HostPort, Before, After, PortOf, Lib.Valid;
  }

  lemma PrintCancels(scheme: string, n: string, m: string, path: string, query: string)
    ensures PrintParts(scheme, n, path, query) == PrintParts(scheme, m, path, query) <==> n == m
    ensures PrintParts(scheme, n, path, query) != ""
  {
    var tail := path + if query == "" then "" else "?" + query;
    var s, t := PrintParts(scheme, n, path, query), PrintParts(scheme, m, path, query);
    if s == t {
      assert |s| == |scheme| + 3 + |n| + |tail| && |t| == |scheme| + 3 + |m| + |tail|;
      assert s[|scheme| + 3..|scheme| + 3 + |n|] == n && t[|scheme| + 3..|scheme| + 3 + |m|] == m;
    }
  }

  /** Canonicalising a canonical URL again changes nothing, iff its netloc is read back as printed. */
  lemma IdempotentIff(lib: Lib, url: string)
    requires lib.Valid() && KeyOf(lib, url).Url?
    ensures var k := KeyOf(lib, url).key;
            CanonicalOf(lib, Print(k)) == Some(Print(k)) <==> Reparses(k.scheme, NetlocOf(k.host, k.port))
  {
    hide KeyOf, KeyWith, NetlocOf, PrintParts, UrlEncode, Before, After, PortOf, Lib.Valid, NormalRest, NamedPort,
      CleanNetloc;
    var k := KeyOf(lib, url).key;
    var n := NetlocOf(k.host, k.port);
    KeyIsNormal(lib, url);
    NetlocChars(lib, k.host, k.port);
    ReKey(lib, k, n);
    PrintCancels(k.scheme, n, n, k.path, UrlEncode(k.params));
    if '[' !in n && ']' !in n {
      Readback(lib, k);
      NetlocReparses(k.scheme, n);
      var x, p := Before(n, ':'), PortOf(After(n, ':'));
      if x != "" && p.Some? {
        PrintCancels(k.scheme, NetlocOf(x, Effective(k.scheme, p.value)), n, k.path, UrlEncode(k.params));
      }
    }
  }

  /** Anything but an IPv6 or IPvFuture address in brackets. */
  ghost predicate PlainHost(h: string) { ':' !in h && '[' !in h && ']' !in h }

  lemma PlainReadback(lib: Lib, k: Key)
    requires lib.Valid() && CleanHost(lib, k.host) && PlainHost(k.host)
    requires k.port <= 65535 && Effective(k.scheme, k.port) == k.port
    ensures KeyWith(lib, k.scheme, NetlocOf(k.host, k.port), k.path, k.params) == Url(k)
  {
    var n := NetlocOf(k.host, k.port);
    NetlocChars(lib, k.host, k.port);
    Readback(lib, k);
    Cut(k.host, ':', Decimal(k.port));
    assert ":" + Decimal(k.port) == [':'] + Decimal(k.port);
    PortOfDecimal(k.port);
    hide KeyWith, Before, After, Lib.Valid, HostPort;
  }

  /** Parsing a printed key gives the key back. */
  lemma PrintedKey(lib: Lib, url: string)
    requires lib.Valid() && KeyOf(lib, url).Url? && PlainHost(KeyOf(lib, url).key.host)
    ensures KeyOf(lib, Print(KeyOf(lib, url).key)) == KeyOf(lib, url)
  {
    hide KeyOf, KeyWith, NetlocOf, PrintParts, UrlEncode, Lib.Valid, NormalRest, CleanNetloc;
    var k := KeyOf(lib, url).key;
    KeyIsNormal(lib, url);
    NetlocChars(lib, k.host, k.port);
    ReKey(lib, k, NetlocOf(k.host, k.port));
    PlainReadback(lib, k);
  }

  /** So canonicalising is idempotent on every URL whose host is no bracketed address. */
  lemma Idempotent(lib: Lib, url: string)
    requires lib.Valid() && KeyOf(lib, url).Url? && PlainHost(KeyOf(lib, url).key.host)
    ensures CanonicalOf(lib, url).Some?
    ensures CanonicalOf(lib, CanonicalOf(lib, url).value) == CanonicalOf(lib, url)
  {
    PrintedKey(lib, url);
    hide KeyOf, Print, Lib.Valid;
  }

  lemma TwoColons(n: string, i: nat, j: nat)
    requires i < j < |n| && n[i] == ':' && n[j] == ':'
    ensures PortOf(After(n, ':')) == None
    ensures Before(n, ':') == "" <==> n[0] == ':'
  {
    var c := Run(n, Is(':'));
    assert Is(':')(n[i]) && Is(':')(n[0]) == (n[0] == ':');
    var t := After(n, ':');
    assert t == n[c + 1..] && t[j - c - 1] == ':' && t[j - c - 1] in t;
    assert !IsDigit(':');
  }

  /** A bracketed address with two colons or more, as every IPv6 address, loses its brackets: asked
      about its own answer, `canonicalize` says it is no URL, or raises. */
  lemma IPv6AnswersAreRejected(lib: Lib, url: string, i: nat, j: nat)
    requires lib.Valid() && KeyOf(lib, url).Url?
    requires var h := KeyOf(lib, url).key.host;
             i < j < |h| && h[i] == ':' && h[j] == ':' && '[' !in h && ']' !in h
    ensures CanonicalOf(lib, Print(KeyOf(lib, url).key))
            == if KeyOf(lib, url).key.host[0] == ':' then Some("") else None
  {
    hide KeyOf, KeyWith, PrintParts, UrlEncode, Before, After, PortOf, Lib.Valid, NormalRest, CleanNetloc;
    var k := KeyOf(lib, url).key;
    var n := NetlocOf(k.host, k.port);
    KeyIsNormal(lib, url);
    NetlocChars(lib, k.host, k.port);
    ReKey(lib, k, n);
    Readback(lib, k);
    assert n[i] == ':' && n[j] == ':' && n[0] == k.host[0];
    TwoColons(n, i, j);
  }

  /** `port or 0` of a netloc whose port does not raise. */
  function PortNumber(netloc: string): nat {
    match PortOf(HostPort(netloc).1) case None => 0 case Some(v) => v
  }

  /** The host, lower-cased, and the port unless it is the default, as they are printed. */
  function PrintedNetloc(lib: Lib, p: Parts): string {
    NetlocOf(lib.lower(HostPort(p.netloc).0), Effective(p.scheme, PortNumber(p.netloc)))
  }

  /** The same scheme up to case, the same printed host and port, the same path up to repeated and trailing
      slashes, and the same wanted parameters in any order. */
  ghost predicate SameResource(lib: Lib, a: Parts, b: Parts) {
    && a.scheme == b.scheme
    && PrintedNetloc(lib, a) == PrintedNetloc(lib, b)
    && Segments(a.path) == Segments(b.path)
    && multiset(ParamsOf(lib, a.query)) == multiset(ParamsOf(lib, b.query))
  }

  /** Between hosts that are no bracketed addresses, printing the same is having the same host and port. */
  lemma PlainNetlocIff(host: string, port: nat, host': string, port': nat)
    requires PlainHost(host) && PlainHost(host')
    ensures NetlocOf(host, port) == NetlocOf(host', port') <==> host == host' && port == port'
  {
    Cut(host, ':', Decimal(port));
    Cut(host', ':', Decimal(port'));
    NumberOfDecimal(port);
    NumberOfDecimal(port');
    assert ":" + Decimal(port) == [':'] + Decimal(port) && ":" + Decimal(port') == [':'] + Decimal(port');
    hide Before, After, Decimal, Number;
  }

  lemma KeyComponents(lib: Lib, url: string, p: Parts)
    requires lib.Valid() && Split(lib, url) == Some(p) && KeyOf(lib, url).Url?
    ensures KeyOf(lib, url).key
            == Key(p.scheme, lib.lower(HostPort(p.netloc).0), Effective(p.scheme, PortNumber(p.netloc)),
                   NormPath(p.path), StableSort(ParamsOf(lib, p.query), ParamLe))
    ensures p.path == "" || Slashed(p.path)
  {
    PartsAreClean(lib, url);
    NoHost(lib);
    assert p.netloc != "";
    hide Split, HostPort, PortOf, NormPath, StableSort, ParamsOf, Lib.Valid, Web;
  }

  lemma TailReadBack(n: string, t: string, n': string, t': string)
    requires CleanNetloc(n) && CleanNetloc(n') && Slashed(t) && Slashed(t') && n + t == n' + t'
    ensures n == n' && t == t'
  {
    RunUpTo(n, t, EndsNetloc());
    RunUpTo(n', t', EndsNetloc());
    assert (n + t)[..|n|] == n && (n' + t')[..|n'|] == n';
    assert (n + t)[|n|..] == t && (n' + t')[|n'|..] == t';
  }

  /** A printed URL can be read in one way only. */
  lemma PartsReadBack(a: Parts, b: Parts)
    requires Web(a.scheme) && CleanNetloc(a.netloc) && CleanPath(a.path) && CleanQuery(a.query)
    requires Web(b.scheme) && CleanNetloc(b.netloc) && CleanPath(b.path) && CleanQuery(b.query)
    requires PrintParts(a.scheme, a.netloc, a.path, a.query) == PrintParts(b.scheme, b.netloc, b.path, b.query)
    ensures a == b
  {
    var t := a.path + if a.query == "" then "" else "?" + a.query;
    var t' := b.path + if b.query == "" then "" else "?" + b.query;
    var r, r' := "//" + (a.netloc + t), "//" + (b.netloc + t');
    WebIsSchemeText(a.scheme);
    WebIsSchemeText(b.scheme);
    SchemePrinted(a.scheme, r);
    SchemePrinted(b.scheme, r');
    assert r[2..] == a.netloc + t && r'[2..] == b.netloc + t';
    SplitTailPrinted(a.scheme, a.netloc, a.path, a.query);
    SplitTailPrinted(b.scheme, b.netloc, b.path, b.query);
    hide SchemeLength, SplitTail, Web, CleanNetloc;
    TailReadBack(a.netloc, t, b.netloc, t');
  }

  /** Keys print the same iff they differ at most in how host and port make up one netloc. */
  lemma PrintIff(lib: Lib, u: string, v: string)
    requires lib.Valid() && KeyOf(lib, u).Url? && KeyOf(lib, v).Url?
    ensures var k, l := KeyOf(lib, u).key, KeyOf(lib, v).key;
            Print(k) == Print(l)
            <==> k.scheme == l.scheme && NetlocOf(k.host, k.port) == NetlocOf(l.host, l.port)
                 && k.path == l.path && k.params == l.params
  {
    hide KeyOf, NetlocOf, PrintParts, UrlEncode, ParseQsl, NormPath, StableSort, Wanted, CleanNetloc, CleanPath;
    var k, l := KeyOf(lib, u).key, KeyOf(lib, v).key;
    KeyIsNormal(lib, u);
    KeyIsNormal(lib, v);
    NetlocChars(lib, k.host, k.port);
    NetlocChars(lib, l.host, l.port);
    EncodedChars(k.params);
    EncodedChars(l.params);
    assert CleanQuery(UrlEncode(k.params)) && CleanQuery(UrlEncode(l.params));
    ParseEncoded(k.params, lib.decode);
    ParseEncoded(l.params, lib.decode);
    hide Lib.Valid, CleanHost, CleanQuery, Web;
    if Print(k) == Print(l) {
      PartsReadBack(Parts(k.scheme, NetlocOf(k.host, k.port), k.path, UrlEncode(k.params)),
                    Parts(l.scheme, NetlocOf(l.host, l.port), l.path, UrlEncode(l.params)));
    }
  }

  /** Two URLs have one canonical form iff they name the same resource: fragments, tracking
      parameters, the order of parameters, slash runs, trailing slashes, default ports and the case of
      scheme and host make no difference, and everything else does. */
  lemma CanonicalIff(lib: Lib, u: string, v: string, a: Parts, b: Parts)
    requires lib.Valid() && Split(lib, u) == Some(a) && Split(lib, v) == Some(b)
    requires KeyOf(lib, u).Url? && KeyOf(lib, v).Url?
    ensures CanonicalOf(lib, u) == CanonicalOf(lib, v) <==> SameResource(lib, a, b)
  {
    hide Split, KeyOf, Print, HostPort, PortNumber, NormPath, StableSort, ParamsOf, Segments, Effective, NetlocOf,
      Lib.Valid;
    PrintIff(lib, u, v);
    KeyComponents(lib, u, a);
    KeyComponents(lib, v, b);
    NormPathIff(a.path, b.path);
    SortIff(ParamsOf(lib, a.query), ParamsOf(lib, b.query));
  }
}
