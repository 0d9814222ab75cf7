/** Canonical URLs, told of URL texts: what a URL written down part by part becomes, and which changes to
    any URL, by a fragment, a parameter, a line break or the case of its scheme, make no difference. */
module Urls {
  import opened Strings
  import opened Utf8
  import opened Wrappers
  import opened Sorting
  import opened QueryString
  import opened Canonical

  // ---------- texts of any shape ----------

  lemma {:induction false} StripGrows(u: string, t: string)
    requires t != "" && t[0] > ' '
    ensures LStripControls(u + t) == LStripControls(u) + t
  {
    if u == "" {
      assert u + t == t;
    } else {
      assert (u + t)[0] == u[0] && (u + t)[1..] == u[1..] + t;
      StripGrows(u[1..], t);
    }
  }

  lemma {:induction false} StripKeeps(u: string, c: char)
    requires c > ' '
    ensures c in LStripControls(u) <==> c in u
  {
    if u != "" {
      assert u == [u[0]] + u[1..];
      StripKeeps(u[1..], c);
    }
  }

  lemma {:induction false} RemoveConcat(s: string, t: string)
    ensures RemoveUnsafe(s + t) == RemoveUnsafe(s) + RemoveUnsafe(t)
  {
    if s == "" {
      assert s + t == t;
    } else {
      assert (s + t)[0] == s[0] && (s + t)[1..] == s[1..] + t;
      RemoveConcat(s[1..], t);
    }
  }

  lemma {:induction false} RemoveKeeps(s: string, c: char)
    requires !Unsafe(c)
    ensures c in RemoveUnsafe(s) <==> c in s
  {
    if s != "" {
      assert s == [s[0]] + s[1..];
      RemoveKeeps(s[1..], c);
    }
  }

  /** What `urlsplit` reads of a URL. */
  function Cleaned(u: string): string { RemoveUnsafe(LStripControls(u)) }

  lemma CleanedGrows(u: string, t: string)
    requires t != "" && t[0] > ' '
    ensures Cleaned(u + t) == Cleaned(u) + RemoveUnsafe(t)
  {
    hide RemoveUnsafe, LStripControls;
    StripGrows(u, t);
    RemoveConcat(LStripControls(u), t);
  }

  lemma CleanedKeeps(u: string, c: char)
    requires c > ' '
    ensures c in Cleaned(u) <==> c in u
  {
    hide RemoveUnsafe, LStripControls;
    StripKeeps(u, c);
    RemoveKeeps(LStripControls(u), c);
  }

  lemma SplitOfCleaned(lib: Lib, u: string)
    ensures Split(lib, u) == SplitCleaned(lib, Cleaned(u))
  {
    hide RemoveUnsafe, LStripControls, SplitNetloc, SchemeLength, AsciiLower;
  }

  /** A run that ends, or is ended by what comes next, is not changed by it. */
  lemma {:induction false} RunGrows(s: string, t: string, stop: char -> bool)
    requires Run(s, stop) < |s| || t == "" || stop(t[0])
    ensures Run(s + t, stop) == Run(s, stop)
  {
    if s == "" {
      assert s + t == t;
    } else {
      assert (s + t)[0] == s[0] && (s + t)[1..] == s[1..] + t;
      if !stop(s[0]) {
        RunGrows(s[1..], t, stop);
      }
    }
  }

  /** A scheme is settled by the first character that can neither belong to it nor end it. */
  lemma SchemeGrows(s: string, t: string)
    requires (exists c | c in s :: c != ':' && !SchemeChar(c)) || (t != "" && t[0] != ':' && !SchemeChar(t[0]))
    ensures SchemeLength(s + t) == SchemeLength(s)
  {
    var n, m := Run(s, Is(':')), Run(s + t, Is(':'));
    if n < |s| {
      RunGrows(s, t, Is(':'));
      assert (s + t)[..n] == s[..n];
    } else if 0 < m < |s + t| {
      assert forall k | 0 <= k < m :: !Is(':')((s + t)[k]);
      assert forall k | 0 <= k < |s| :: !Is(':')(s[k]);
      assert (s + t)[m] == ':';
      if m == |s| {
        assert t[0] == ':';
        var c :| c in s && c != ':' && !SchemeChar(c);
        assert c in (s + t)[..m];
      } else if m > |s| {
        assert (s + t)[|s|] == t[0] && t[0] in (s + t)[..m];
        assert s <= (s + t)[..m];
        assert forall c | c in s :: c in (s + t)[..m];
      }
    } else {
      assert SchemeLength(s) == 0;
    }
  }

  lemma RunStops(s: string, k: nat, stop: char -> bool)
    requires k < |s| && stop(s[k])
    ensures Run(s, stop) <= k
  {
  }

  lemma BeforeGrows(s: string, t: string, d: char)
    requires d in s
    ensures Before(s + t, d) == Before(s, d) && After(s + t, d) == After(s, d) + t
  {
    hide Run;
    var n := Run(s, Is(d));
    var k :| 0 <= k < |s| && s[k] == d;
    RunStops(s, k, Is(d));
    RunGrows(s, t, Is(d));
    assert (s + t)[..n] == s[..n] && (s + t)[n + 1..] == s[n + 1..] + t;
  }

  lemma NoCut(s: string, d: char)
    requires d !in s
    ensures Before(s, d) == s && After(s, d) == ""
  {
    Cut(s, d, "");
  }

  // ---------- fragments ----------

  lemma TailDropsFragment(scheme: string, netloc: string, s: string, g: string)
    requires '#' !in s
    ensures SplitTail(scheme, netloc, s + ("#" + g)) == SplitTail(scheme, netloc, s)
  {
    Cut(s, '#', g);
    assert "#" + g == ['#'] + g;
    hide Before, After;
  }

  lemma NetlocDropsFragment(lib: Lib, scheme: string, s: string, g: string)
    requires '#' !in s
    ensures SplitNetloc(lib, scheme, s + ("#" + g)) == SplitNetloc(lib, scheme, s)
  {
    hide SplitTail, BadBrackets;
    var t := "#" + g;
    if |s| >= 2 && s[0] == '/' && s[1] == '/' {
      var r := s[2..];
      var n := Run(r, EndsNetloc());
      RunGrows(r, t, EndsNetloc());
      assert (s + t)[2..] == r + t && (r + t)[..n] == r[..n] && (r + t)[n..] == r[n..] + t;
      assert (s + t)[0] == s[0] && (s + t)[1] == s[1];
      TailDropsFragment(scheme, r[..n], r[n..], g);
    } else {
      assert |s| == 1 ==> (s + t)[1] == '#';
      assert |s| >= 1 ==> (s + t)[0] == s[0];
      assert |s| >= 2 ==> (s + t)[1] == s[1];
      assert |s| == 0 ==> (s + t)[0] == '#';
      TailDropsFragment(scheme, "", s, g);
    }
  }

  /** A fragment makes no difference, whatever comes before it and whatever it holds. */
  lemma FragmentDropped(lib: Lib, u: string, f: string)
    requires '#' !in u
    ensures Split(lib, u + ("#" + f)) == Split(lib, u)
    ensures CanonicalOf(lib, u + ("#" + f)) == CanonicalOf(lib, u)
  {
    FragmentCleaned(u, f);
    hide Cleaned, RemoveUnsafe, Split, SplitCleaned, KeyFrom, Print;
    CleanedDropsFragment(lib, Cleaned(u), RemoveUnsafe(f));
    SplitOfCleaned(lib, u);
    SplitOfCleaned(lib, u + ("#" + f));
  }

  lemma FragmentCleaned(u: string, f: string)
    requires '#' !in u
    ensures Cleaned(u + ("#" + f)) == Cleaned(u) + ("#" + RemoveUnsafe(f)) && '#' !in Cleaned(u)
  {
    assert ("#" + f)[1..] == f && RemoveUnsafe("#" + f) == "#" + RemoveUnsafe(f);
    hide Cleaned, RemoveUnsafe;
    CleanedGrows(u, "#" + f);
    CleanedKeeps(u, '#');
  }

  /** `urlsplit`, of what it reads. */
  function SplitCleaned(lib: Lib, s: string): Option<Parts> {
    var n := SchemeLength(s);
    if n == 0 then SplitNetloc(lib, "", s) else SplitNetloc(lib, AsciiLower(s[..n]), s[n + 1..])
  }

  lemma CleanedDropsFragment(lib: Lib, s: string, g: string)
    requires '#' !in s
    ensures SplitCleaned(lib, s + ("#" + g)) == SplitCleaned(lib, s)
  {
    hide SplitNetloc, SchemeLength, AsciiLower;
    var n := SchemeLength(s);
    FragmentEndsScheme(s, g);
    if n == 0 {
      NetlocDropsFragment(lib, "", s, g);
    } else {
      Slices(s, n, "#" + g);
      NetlocDropsFragment(lib, AsciiLower(s[..n]), s[n + 1..], g);
    }
  }

  lemma FragmentEndsScheme(s: string, g: string)
    ensures SchemeLength(s + ("#" + g)) == SchemeLength(s)
  {
    assert !SchemeChar('#');
    SchemeGrows(s, "#" + g);
    hide SchemeLength;
  }

  // ---------- invisible characters ----------

  lemma {:induction false} CleanedWithout(a: string, c: char, b: string)
    requires Unsafe(c)
    ensures Cleaned(a + ([c] + b)) == Cleaned(a + b)
  {
    if a == "" {
      assert a + ([c] + b) == [c] + b && ([c] + b)[1..] == b && a + b == b;
    } else if a[0] <= ' ' {
      assert (a + ([c] + b))[1..] == a[1..] + ([c] + b) && (a + b)[1..] == a[1..] + b;
      CleanedWithout(a[1..], c, b);
    } else {
      assert LStripControls(a + ([c] + b)) == a + ([c] + b) && LStripControls(a + b) == a + b;
      assert ([c] + b)[1..] == b;
      RemoveConcat(a, [c] + b);
      RemoveConcat(a, b);
    }
  }

  /** Tabs and line breaks make no difference, wherever they stand. */
  lemma LineBreaksIgnored(lib: Lib, a: string, c: char, b: string)
    requires Unsafe(c)
    ensures CanonicalOf(lib, a + ([c] + b)) == CanonicalOf(lib, a + b)
  {
    hide Cleaned, Split, SplitCleaned, KeyFrom, Print, Unsafe;
    CleanedWithout(a, c, b);
    SplitOfCleaned(lib, a + ([c] + b));
    SplitOfCleaned(lib, a + b);
  }

  // ---------- schemes ----------

  /** The letter case of the scheme makes no difference. */
  lemma SchemeCaseIgnored(lib: Lib, scheme: string, r: string)
    requires SchemeText(scheme)
    ensures Split(lib, scheme + (":" + r)) == Split(lib, AsciiLower(scheme) + (":" + r))
    ensures CanonicalOf(lib, scheme + (":" + r)) == CanonicalOf(lib, AsciiLower(scheme) + (":" + r))
  {
    hide Split, KeyFrom, Print, AsciiLower, SchemeText, SplitNetloc, RemoveUnsafe;
    LoweredScheme(scheme);
    SchemeOf(lib, scheme, r);
    SchemeOf(lib, AsciiLower(scheme), r);
  }

  lemma LoweredScheme(scheme: string)
    requires SchemeText(scheme)
    ensures SchemeText(AsciiLower(scheme)) && AsciiLower(AsciiLower(scheme)) == AsciiLower(scheme)
  {
    var lower := AsciiLower(scheme);
    forall k | 0 <= k < |lower| ensures SchemeChar(lower[k]) && LowerChar(lower[k]) == lower[k] {
      assert scheme[k] in scheme;
    }
    assert AsciiLower(lower) == lower;
  }

  lemma SchemeOf(lib: Lib, scheme: string, r: string)
    requires SchemeText(scheme)
    ensures Split(lib, scheme + (":" + r)) == SplitNetloc(lib, AsciiLower(scheme), RemoveUnsafe(r))
  {
    var u := scheme + (":" + r);
    SchemePrinted(scheme, r);
    SchemePrinted(scheme, RemoveUnsafe(r));
    RemoveConcat(scheme, ":" + r);
    RemoveUnsafeFixed(scheme);
    assert (":" + r)[1..] == r && RemoveUnsafe(":" + r) == ":" + RemoveUnsafe(r);
    assert LStripControls(u) == u;
    hide SplitNetloc, RemoveUnsafe, SchemeLength, AsciiLower;
  }

  // ---------- the order of parameters ----------

  /** A canonical URL lists its parameters by name, then by value, in code point order, whatever their
      order was. */
  lemma ParametersInOrder(lib: Lib, u: string, i: nat, j: nat)
    requires KeyOf(lib, u).Url? && i < j < |KeyOf(lib, u).key.params|
    ensures var p, q := KeyOf(lib, u).key.params[i], KeyOf(lib, u).key.params[j];
            if p.0 == q.0 then AtMost(p.1, q.1) else AtMost(p.0, q.0)
  {
    hide StableSort, ParamsOf, NormPath, HostPort, PortOf, Split, StringLe;
    var query := Split(lib, u).value.query;
    ParamLeOrders();
    StableSortProperties(ParamsOf(lib, query), ParamLe);
    var p, q := KeyOf(lib, u).key.params[i], KeyOf(lib, u).key.params[j];
    assert ParamLe(p, q);
    StringLeIff(p.0, q.0);
    StringLeIff(p.1, q.1);
  }

  // ---------- added parameters ----------

  lemma TailGrows(scheme: string, netloc: string, s: string, x: string)
    requires '?' in s && '#' !in s && '#' !in x
    ensures SplitTail(scheme, netloc, s + x)
            == SplitTail(scheme, netloc, s).(query := SplitTail(scheme, netloc, s).query + x)
  {
    NoCut(s, '#');
    NoCut(s + x, '#');
    BeforeGrows(s, x, '?');
    hide Before, After;
  }

  function Grown(p: Option<Parts>, x: string): Option<Parts> {
    match p case None => None case Some(a) => Some(a.(query := a.query + x))
  }

  /** The netloc ends before the query starts. */
  lemma QueryBehindNetloc(r: string, x: string)
    requires '?' in r
    ensures var n := Run(r, EndsNetloc());
            && Run(r + x, EndsNetloc()) == n && (r + x)[..n] == r[..n] && (r + x)[n..] == r[n..] + x && '?' in r[n..]
  {
    hide Run;
    var n := Run(r, EndsNetloc());
    var k :| 0 <= k < |r| && r[k] == '?';
    RunStops(r, k, EndsNetloc());
    RunGrows(r, x, EndsNetloc());
    assert (r + x)[..n] == r[..n] && (r + x)[n..] == r[n..] + x && r[n..][k - n] == '?';
  }

  lemma NetlocGrows(lib: Lib, scheme: string, s: string, x: string)
    requires '?' in s && '#' !in s && '#' !in x
    ensures SplitNetloc(lib, scheme, s + x) == Grown(SplitNetloc(lib, scheme, s), x)
  {
    hide SplitTail, BadBrackets, Run, EndsNetloc;
    if |s| >= 2 && s[0] == '/' && s[1] == '/' {
      var r := s[2..];
      assert s == s[..2] + r && '?' in r;
      var n := Run(r, EndsNetloc());
      QueryBehindNetloc(r, x);
      assert (s + x)[2..] == r + x;
      assert (s + x)[0] == s[0] && (s + x)[1] == s[1];
      assert '#' !in r[n..] by {
        assert forall c | c in r[n..] :: c in s;
      }
      TailGrows(scheme, r[..n], r[n..], x);
    } else {
      assert (s + x)[0] == s[0] && (|s| >= 2 ==> (s + x)[1] == s[1]) && (|s| == 1 ==> s[0] == '?');
      TailGrows(scheme, "", s, x);
    }
  }

  lemma SplitGrows(lib: Lib, u: string, x: string)
    requires '?' in u && '#' !in u && x != "" && x[0] > ' ' && CleanQuery(x)
    ensures Split(lib, u + x) == Grown(Split(lib, u), x)
  {
    hide Cleaned, Split, SplitCleaned, Grown, RemoveUnsafe;
    CleanedGrows(u, x);
    RemoveUnsafeFixed(x);
    CleanedKeeps(u, '?');
    CleanedKeeps(u, '#');
    SplitCleanedGrows(lib, Cleaned(u), x);
    SplitOfCleaned(lib, u);
    SplitOfCleaned(lib, u + x);
  }

  lemma SplitCleanedGrows(lib: Lib, s: string, x: string)
    requires '?' in s && '#' !in s && '#' !in x
    ensures SplitCleaned(lib, s + x) == Grown(SplitCleaned(lib, s), x)
  {
    hide SplitNetloc, SchemeLength, AsciiLower, Grown;
    var n := SchemeLength(s);
    QueryEndsScheme(s, x);
    if n == 0 {
      NetlocGrows(lib, "", s, x);
    } else {
      QueryBehindScheme(s);
      Slices(s, n, x);
      NetlocGrows(lib, AsciiLower(s[..n]), s[n + 1..], x);
    }
  }

  lemma QueryEndsScheme(s: string, x: string)
    requires '?' in s
    ensures SchemeLength(s + x) == SchemeLength(s)
  {
    assert !SchemeChar('?');
    SchemeGrows(s, x);
    hide SchemeLength;
  }

  lemma Slices(s: string, n: nat, x: string)
    requires n < |s|
    ensures (s + x)[..n] == s[..n] && (s + x)[n + 1..] == s[n + 1..] + x
  {
  }

  lemma QueryBehindScheme(s: string)
    requires '?' in s && SchemeLength(s) > 0
    ensures '?' in s[SchemeLength(s) + 1..] && ('#' !in s ==> '#' !in s[SchemeLength(s) + 1..])
  {
    hide Run;
    var n := SchemeLength(s);
    var k :| 0 <= k < |s| && s[k] == '?';
    assert !SchemeChar('?') && s[n] == ':';
    assert forall c | c in s[..n] :: SchemeChar(c);
    assert s[n + 1..][k - n - 1] == '?';
    hide SchemeLength;
  }

  lemma {:induction false} SplitAmpConcat(a: string, b: string)
    ensures SplitAmp(a + ("&" + b)) == SplitAmp(a) + SplitAmp(b)
    decreases |a|
  {
    hide SplitAmp;
    var n := Run(a, IsAmp());
    var s := a[..n];
    assert Free(s, IsAmp()) by {
      assert forall k | 0 <= k < n :: !IsAmp()(a[k]);
    }
    if n == |a| {
      assert s == a;
      SplitFirst(a, b);
    } else {
      var rest := a[n + 1..];
      SplitAmpConcat(rest, b);
      assert IsAmp()(a[n]) && a[n] == '&';
      assert a == s + ("&" + rest);
      assert a + ("&" + b) == s + ("&" + (rest + ("&" + b)));
      SplitFirst(s, rest + ("&" + b));
      SplitFirst(s, rest);
      assert [s] + (SplitAmp(rest) + SplitAmp(b)) == ([s] + SplitAmp(rest)) + SplitAmp(b);
    }
  }

  lemma {:induction false} ParsePiecesConcat(ps: seq<string>, qs: seq<string>, decode: seq<Byte> -> string)
    ensures ParsePieces(ps + qs, decode) == ParsePieces(ps, decode) + ParsePieces(qs, decode)
  {
    hide ParsePiece;
    if ps == [] {
      assert ps + qs == qs;
    } else {
      assert ps + qs == [ps[0]] + (ps[1..] + qs) && ps == [ps[0]] + ps[1..];
      ParsePiecesConcat(ps[1..], qs, decode);
      ParsePiecesCons(ps[0], ps[1..] + qs, decode);
      ParsePiecesCons(ps[0], ps[1..], decode);
    }
  }

  lemma ParseAdded(q: string, p: Param, decode: seq<Byte> -> string)
    requires DecodesUtf8(decode)
    ensures ParseQsl(q + ("&" + EncodePair(p)), decode) == ParseQsl(q, decode) + [p]
  {
    SplitAmpConcat(q, EncodePair(p));
    ParsePiecesConcat(SplitAmp(q), SplitAmp(EncodePair(p)), decode);
    ParseFirst(p, "", decode);
    hide SplitAmp, EncodePair, ParsePieces, DecodesUtf8;
  }

  lemma {:induction false} WantedConcat(lib: Lib, a: seq<Param>, b: seq<Param>)
    ensures Wanted(lib, a + b) == Wanted(lib, a) + Wanted(lib, b)
  {
    hide Unwanted;
    if a == [] {
      assert a + b == b;
    } else {
      assert (a + b)[0] == a[0] && (a + b)[1..] == a[1..] + b;
      WantedConcat(lib, a[1..], b);
    }
  }

  /** The names that are dropped, by their lower case. */
  predicate Tracks(key: string) {
    || key in {"gclid", "fbclid", "ref", "ref_src", "_hsenc", "_hsmi", "igshid", "vero_id", "mkt_tok", "yclid"}
    || (|key| >= 4 && key[..4] == "utm_") || (|key| >= 3 && key[..3] == "mc_")
  }

  lemma UnwantedTracks(lib: Lib, name: string)
    ensures Unwanted(lib, name) <==> Tracks(lib.lower(name))
  {
    var key := lib.lower(name);
    assert "utm_" <= key <==> |key| >= 4 && key[..4] == "utm_";
    assert "mc_" <= key <==> |key| >= 3 && key[..3] == "mc_";
  }

  lemma {:induction false} WantedCount(lib: Lib, ps: seq<Param>, p: Param)
    ensures multiset(Wanted(lib, ps))[p] == if Unwanted(lib, p.0) then 0 else multiset(ps)[p]
  {
    hide Unwanted;
    if ps != [] {
      WantedCount(lib, ps[1..], p);
      assert ps == [ps[0]] + ps[1..];
    }
  }

  /** The key of a URL with one more parameter. */
  lemma AddedKey(lib: Lib, u: string, p: Param)
    requires lib.Valid() && '?' in u && '#' !in u && KeyOf(lib, u).Url?
    ensures Split(lib, u).Some? && KeyOf(lib, u + ("&" + EncodePair(p))).Url?
    ensures var k, l := KeyOf(lib, u).key, KeyOf(lib, u + ("&" + EncodePair(p))).key;
            var old_ := ParamsOf(lib, Split(lib, u).value.query);
            && k == l.(params := k.params) && k.params == StableSort(old_, ParamLe)
            && l.params == StableSort(old_ + if Unwanted(lib, p.0) then [] else [p], ParamLe)
  {
    var x := "&" + EncodePair(p);
    PairIsClean(p);
    SplitGrows(lib, u, x);
    hide Split, StableSort, Wanted, ParseQsl, EncodePair, NormPath, HostPort, PortOf, Unwanted, CleanQuery, Lib.Valid,
      KeyWith;
    AddedParams(lib, Split(lib, u).value.query, p);
    var a := Split(lib, u).value;
    SameButParams(lib, a, a.(query := a.query + x));
  }

  lemma PairIsClean(p: Param)
    ensures CleanQuery("&" + EncodePair(p))
  {
    EncodePairFree(p);
    assert !Quoted('#') && !Quoted('\t') && !Quoted('\r') && !Quoted('\n');
    hide EncodePair, Quoted;
    forall c | c in "&" + EncodePair(p) ensures c != '#' && !Unsafe(c) {
      assert c == '&' || Quoted(c) || c == '=';
    }
  }

  lemma AddedParams(lib: Lib, q: string, p: Param)
    requires lib.Valid()
    ensures ParamsOf(lib, q + ("&" + EncodePair(p)))
            == ParamsOf(lib, q) + if Unwanted(lib, p.0) then [] else [p]
  {
    ParseAdded(q, p, lib.decode);
    WantedConcat(lib, ParseQsl(q, lib.decode), [p]);
    hide Unwanted, ParseQsl, EncodePair, Lib.Valid;
    assert [p][1..] == [] && Wanted(lib, []) == [] && Wanted(lib, [p]) == if Unwanted(lib, p.0) then [] else [p];
  }

  lemma SameButParams(lib: Lib, a: Parts, b: Parts)
    requires b == a.(query := b.query) && KeyFrom(lib, a).Url?
    ensures KeyFrom(lib, b)
            == Url(KeyFrom(lib, a).key.(params := StableSort(ParamsOf(lib, b.query), ParamLe)))
    ensures KeyFrom(lib, a).key.params == StableSort(ParamsOf(lib, a.query), ParamLe)
  {
    hide HostPort, PortOf, NormPath, StableSort, ParamsOf;
  }

  /** Of any URL with a query: one more parameter, with any name and value, makes no difference iff it is a
      tracking parameter, in any letter case. */
  lemma AddedParameterIff(lib: Lib, u: string, name: string, value: string)
    requires lib.Valid() && '?' in u && '#' !in u && KeyOf(lib, u).Url?
    ensures CanonicalOf(lib, u + ("&" + EncodePair((name, value)))) == CanonicalOf(lib, u)
            <==> Tracks(lib.lower(name))
  {
    hide KeyOf, Split, StableSort, ParamsOf, EncodePair, Tracks, Unwanted, Print, NetlocOf, Lib.Valid;
    var p := (name, value);
    AddedKey(lib, u, p);
    UnwantedTracks(lib, name);
    PrintIff(lib, u + ("&" + EncodePair(p)), u);
    var all := ParamsOf(lib, Split(lib, u).value.query);
    SortIff(all, all + [p]);
    OneMore(all, p);
  }

  lemma OneMore(all: seq<Param>, p: Param)
    ensures multiset(all + [p]) != multiset(all) && all + [] == all
  {
    assert |multiset(all + [p])| == |multiset(all)| + 1;
  }

  // ---------- URLs written down part by part ----------

  /** A URL's parts as they are written; the parameters are percent-encoded. */
  datatype Parted = Parted(scheme: string, user: Option<string>, host: string, port: Option<nat>, path: string,
                           params: seq<Param>, fragment: Option<string>)

  predicate UserText(s: string) {
    forall c | c in s :: c != '/' && c != '?' && c != '#' && c != '[' && c != ']' && !Unsafe(c)
  }

  predicate HostText(s: string) { s != "" && forall c | c in s :: !Delimiter(c) }

  ghost predicate WellFormed(u: Parted) {
    && SchemeText(u.scheme) && Web(AsciiLower(u.scheme)) && HostText(u.host) && PathAfterNetloc(u.path)
    && (u.user.Some? ==> UserText(u.user.value)) && (u.port.Some? ==> u.port.value <= 65535)
  }

  function HostPortText(u: Parted): string {
    match u.port case None => u.host case Some(v) => u.host + ([':'] + Decimal(v))
  }

  function NetlocText(u: Parted): string {
    match u.user case None => HostPortText(u) case Some(name) => name + (['@'] + HostPortText(u))
  }

  function Unfragmented(u: Parted): string { PrintParts(u.scheme, NetlocText(u), u.path, UrlEncode(u.params)) }

  /** `scheme://user@host:port/path?query#fragment` */
  function Written(u: Parted): string {
    match u.fragment case None => Unfragmented(u) case Some(f) => Unfragmented(u) + ("#" + f)
  }

  /** The port, unless it is 0 or the scheme's own. */
  function PortShown(u: Parted): Option<nat> {
    var scheme := AsciiLower(u.scheme);
    match u.port
    case None => None
    case Some(v) =>
      if v == 0 || (scheme == "http" && v == 80) || (scheme == "https" && v == 443) then None else Some(v)
  }

  /** The same scheme and host up to case, the same port shown, the same path up to slashes, and each
      parameter that does not track as often in the one as in the other. */
  ghost predicate SamePage(lib: Lib, u: Parted, v: Parted) {
    && AsciiLower(u.scheme) == AsciiLower(v.scheme) && lib.lower(u.host) == lib.lower(v.host)
    && PortShown(u) == PortShown(v) && Segments(u.path) == Segments(v.path)
    && forall p: Param :: Tracks(lib.lower(p.0)) || multiset(u.params)[p] == multiset(v.params)[p]
  }

  lemma AfterLastCut(a: string, d: char, b: string)
    requires d !in b
    ensures AfterLast(a + ([d] + b), d) == b
  {
    var s := a + ([d] + b);
    if b == "" {
      assert s[|s| - 1] == d;
    } else {
      var m := |b| - 1;
      assert s[|s| - 1] == b[m] && b[m] in b;
      assert s[..|s| - 1] == a + ([d] + b[..m]) && b == b[..m] + [b[m]];
      AfterLastCut(a, d, b[..m]);
    }
  }

  lemma HostPortTextChars(u: Parted)
    requires HostText(u.host)
    ensures forall c | c in HostPortText(u) :: c == ':' || !Delimiter(c)
  {
    assert forall c | IsDigit(c) :: !Delimiter(c);
    hide Delimiter, Decimal;
  }

  /** What `_hostinfo` reads of a netloc: a user's name and password are ignored. */
  lemma HostPortRead(u: Parted)
    requires HostText(u.host) && (u.user.Some? ==> UserText(u.user.value))
    ensures HostPort(NetlocText(u)) == (u.host, match u.port case None => "" case Some(v) => Decimal(v))
  {
    var info := HostPortText(u);
    HostPortTextChars(u);
    assert Delimiter('@') && Delimiter('[') && Delimiter(':');
    assert '@' !in info && '[' !in info && ':' !in u.host;
    if u.user.Some? {
      AfterLastCut(u.user.value, '@', info);
    } else {
      AfterLastFixed(info, '@');
    }
    Cut(info, '[', "");
    Cut(u.host, ':', match u.port case None => "" case Some(v) => Decimal(v));
    assert Run(info, Is('[')) == |info| by {
      assert Free(info, Is('['));
      RunUpTo(info, "", Is('['));
      assert info + "" == info;
    }
    hide AfterLast, Run, Before, After, Decimal, Delimiter;
  }

  /** A bracketed address and its port are read out of their brackets, a user's name and password ignored. */
  lemma BracketedRead(user: string, address: string, port: Option<string>)
    requires ('@' !in address) && ']' !in address && (port.Some? ==> '@' !in port.value)
    ensures var text := match port case None => "" case Some(p) => [':'] + p;
            var netloc := ['['] + (address + ([']'] + text));
            && HostPort(netloc) == (address, match port case None => "" case Some(p) => p)
            && HostPort(user + (['@'] + netloc)) == HostPort(netloc)
  {
    var text := match port case None => "" case Some(p) => [':'] + p;
    var rest := address + ([']'] + text);
    var netloc := "" + (['['] + rest);
    assert netloc == ['['] + rest && '@' !in netloc;
    AfterLastCut(user, '@', netloc);
    AfterLastFixed(netloc, '@');
    Cut("", '[', rest);
    Cut(address, ']', text);
    Cut("", ':', match port case None => "" case Some(p) => p);
    assert "" + text == text;
    assert Run(netloc, Is('[')) == 0 by {
      RunStops(netloc, 0, Is('['));
    }
    hide AfterLast, Run, Before, After;
  }

  lemma NetlocTextChars(u: Parted)
    requires HostText(u.host) && (u.user.Some? ==> UserText(u.user.value))
    ensures NoUnsafe(NetlocText(u)) && Free(NetlocText(u), EndsNetloc())
    ensures '[' !in NetlocText(u) && ']' !in NetlocText(u)
  {
    HostPortTextChars(u);
    var info := HostPortText(u);
    assert forall c | c in info :: c != '/' && c != '?' && c != '#' && c != '[' && c != ']' && !Unsafe(c);
    hide HostPortText, Delimiter, HostText;
    forall c | c in NetlocText(u)
      ensures c != '/' && c != '?' && c != '#' && c != '[' && c != ']' && !Unsafe(c)
    {
      assert c in info || c == '@' || (u.user.Some? && c in u.user.value);
    }
  }

  lemma QueryIsClean(params: seq<Param>)
    ensures CleanQuery(UrlEncode(params))
  {
    EncodedChars(params);
    assert !Quoted('#') && !Quoted('\t') && !Quoted('\r') && !Quoted('\n');
    hide UrlEncode, Quoted;
    forall c | c in UrlEncode(params) ensures c != '#' && !Unsafe(c) {
    }
  }

  function PortValue(u: Parted): nat { match u.port case None => 0 case Some(v) => v }

  /** Reading a written URL gives its parts. */
  lemma KeyOfWritten(lib: Lib, u: Parted)
    requires lib.Valid() && WellFormed(u)
    ensures KeyOf(lib, Written(u))
            == Url(Key(AsciiLower(u.scheme), lib.lower(u.host), Effective(AsciiLower(u.scheme), PortValue(u)),
                       NormPath(u.path), StableSort(Wanted(lib, u.params), ParamLe)))
  {
    var n, q := NetlocText(u), UrlEncode(u.params);
    NetlocTextChars(u);
    QueryIsClean(u.params);
    SplitWritten(lib, u.scheme, n, u.path, q);
    UnfragmentedChars(u);
    if u.fragment.Some? {
      FragmentDropped(lib, Unfragmented(u), u.fragment.value);
    }
    HostPortRead(u);
    ParseEncoded(u.params, lib.decode);
    if u.port.Some? {
      PortOfDecimal(u.port.value);
    }
    assert lib.LowersWell(u.host);
    hide Split, HostPort, PortOf, NormPath, StableSort, Wanted, ParseQsl, UrlEncode, NetlocText, Lib.Valid, CleanQuery,
      AsciiLower, PrintParts, Decimal, SchemeText, HostText, PathAfterNetloc;
  }

  lemma UnfragmentedChars(u: Parted)
    requires WellFormed(u)
    ensures '#' !in Unfragmented(u)
  {
    NetlocTextChars(u);
    QueryIsClean(u.params);
    assert !SchemeChar('#') && '#' !in NetlocText(u) by {
      assert EndsNetloc()('#');
    }
    hide NetlocText, UrlEncode, SchemeChar;
  }

  lemma LoweredIsPlain(lib: Lib, host: string)
    requires lib.Valid() && HostText(host)
    ensures PlainHost(lib.lower(host))
  {
    assert lib.LowersWell(host);
    assert Delimiter(':') && Delimiter('[') && Delimiter(']');
    hide DecodesUtf8;
  }

  /** Two written URLs have one canonical form iff they name the same page: users, fragments, tracking
      parameters, the order of parameters, slash runs and trailing slashes, default ports and the case of
      scheme and host make no difference, and everything else does. */
  lemma SamePageIff(lib: Lib, u: Parted, v: Parted)
    requires lib.Valid() && WellFormed(u) && WellFormed(v)
    ensures CanonicalOf(lib, Written(u)) == CanonicalOf(lib, Written(v)) <==> SamePage(lib, u, v)
  {
    hide KeyOf, Print, StableSort, Wanted, NormPath, Segments, NetlocOf, AsciiLower, Written, Lib.Valid, Tracks,
      SchemeText, HostText, PathAfterNetloc, Decimal, UserText;
    KeyOfWritten(lib, u);
    KeyOfWritten(lib, v);
    PrintIff(lib, Written(u), Written(v));
    LoweredIsPlain(lib, u.host);
    LoweredIsPlain(lib, v.host);
    PlainNetlocIff(lib.lower(u.host), Effective(AsciiLower(u.scheme), PortValue(u)),
                   lib.lower(v.host), Effective(AsciiLower(v.scheme), PortValue(v)));
    NormPathIff(u.path, v.path) by {
      PathStarts(u.path);
      PathStarts(v.path);
    }
    SortIff(Wanted(lib, u.params), Wanted(lib, v.params));
    WantedIff(lib, u.params, v.params);
  }

  lemma PathStarts(p: string)
    requires PathAfterNetloc(p)
    ensures p == "" || Slashed(p)
  {
  }

  lemma WantedIff(lib: Lib, ps: seq<Param>, qs: seq<Param>)
    ensures multiset(Wanted(lib, ps)) == multiset(Wanted(lib, qs))
            <==> forall p: Param :: Tracks(lib.lower(p.0)) || multiset(ps)[p] == multiset(qs)[p]
  {
    hide Wanted, Unwanted, Tracks;
    var m, n := multiset(Wanted(lib, ps)), multiset(Wanted(lib, qs));
    forall p: Param ensures m[p] == n[p] <==> Tracks(lib.lower(p.0)) || multiset(ps)[p] == multiset(qs)[p] {
      WantedCount(lib, ps, p);
      WantedCount(lib, qs, p);
      UnwantedTracks(lib, p.0);
    }
    if forall p: Param :: m[p] == n[p] {
      assert m == n;
    }
  }
}
