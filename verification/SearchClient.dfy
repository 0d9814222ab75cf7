/** The search client: cache keys, the Brave-first route with its merge, and cached answers. */
module SearchClient {
  import opened Strings
  import opened Wrappers
  import Cache

  // ---------- requests and their keys ----------

  datatype Freshness = Any | Day | Week | Month | Year

  datatype Request = Request(query: string, freshness: Freshness, maxResults: nat,
                             lang: Option<string>, country: Option<string>)

  function FreshnessName(f: Freshness): string {
    match f
    case Any => "any"
    case Day => "day"
    case Week => "week"
    case Month => "month"
    case Year => "year"
  }

  /** `value or ''` */
  function OrEmpty(o: Option<string>): string {
    match o case None => "" case Some(s) => s
  }

  /** The string whose digest is the cache key. */
  function Canonical(r: Request): string {
    "q=" + r.query + "|f=" + FreshnessName(r.freshness) + "|n=" + Decimal(r.maxResults)
    + "|lang=" + OrEmpty(r.lang) + "|c=" + OrEmpty(r.country)
  }

  /** Requests that differ at most in leaving a field out or giving it empty. */
  predicate SameRequest(a: Request, b: Request) {
    && a.query == b.query && a.freshness == b.freshness && a.maxResults == b.maxResults
    && OrEmpty(a.lang) == OrEmpty(b.lang) && OrEmpty(a.country) == OrEmpty(b.country)
  }

  /** The locale fields hold no separator; the query may. */
  predicate PlainLocale(r: Request) { '|' !in OrEmpty(r.lang) && '|' !in OrEmpty(r.country) }

  lemma LastBar(a: string, x: string)
    requires '|' !in x
    ensures var s := a + "|" + x; s[|a|] == '|' && forall k | |a| < k < |s| :: s[k] != '|'
  {
    var s := a + "|" + x;
    assert forall k | |a| < k < |s| :: s[k] == x[k - |a| - 1];
  }

  /** A last field that holds no separator can be read back. */
  lemma LastField(a: string, x: string, b: string, y: string)
    requires a + "|" + x == b + "|" + y && '|' !in x && '|' !in y
    ensures a == b && x == y
  {
    LastBar(a, x);
    LastBar(b, y);
    var s, t := a + "|" + x, b + "|" + y;
    assert |a| == |b|;
    assert s[..|a|] == a && t[..|a|] == b;
    assert s[|a| + 1..] == x && t[|a| + 1..] == y;
  }

  /** The same, with the field's label. */
  lemma LastLabelled(a: string, name: string, x: string, b: string, y: string)
    requires a + ("|" + name) + x == b + ("|" + name) + y
    requires '|' !in name && '|' !in x && '|' !in y
    ensures a == b && x == y
  {
    assert a + "|" + (name + x) == a + ("|" + name) + x;
    assert b + "|" + (name + y) == b + ("|" + name) + y;
    LastField(a, name + x, b, name + y);
    assert (name + x)[|name|..] == x && (name + y)[|name|..] == y;
  }

  lemma FreshnessNameInjective(f: Freshness, g: Freshness)
    requires FreshnessName(f) == FreshnessName(g)
    ensures f == g
  {
    assert FreshnessName(f)[0] == FreshnessName(g)[0];
  }

  lemma FreshnessNamePlain(f: Freshness)
    ensures '|' !in FreshnessName(f)
  {
  }

  /** With plain locale fields, two requests share a key string iff they are the same up to `None` and
      `''`, even if their queries hold separators. */
  lemma KeyInjective(a: Request, b: Request)
    requires PlainLocale(a) && PlainLocale(b)
    ensures Canonical(a) == Canonical(b) <==> SameRequest(a, b)
  {
    if Canonical(a) == Canonical(b) {
      hide FreshnessName, Decimal, OrEmpty;
      var fa, fb := FreshnessName(a.freshness), FreshnessName(b.freshness);
      var na, nb := Decimal(a.maxResults), Decimal(b.maxResults);
      var la, lb := OrEmpty(a.lang), OrEmpty(b.lang);
      var ca, cb := OrEmpty(a.country), OrEmpty(b.country);
      FieldsReadBack("q=" + a.query, fa, na, la, ca, "q=" + b.query, fb, nb, lb, cb) by {
        FreshnessNamePlain(a.freshness);
        FreshnessNamePlain(b.freshness);
        assert !IsDigit('|');
      }
      assert ("q=" + a.query)[2..] == a.query && ("q=" + b.query)[2..] == b.query;
      FreshnessNameInjective(a.freshness, b.freshness);
      NumberOfDecimal(a.maxResults);
      NumberOfDecimal(b.maxResults);
    }
  }

  lemma FieldsReadBack(qa: string, fa: string, na: string, la: string, ca: string,
                       qb: string, fb: string, nb: string, lb: string, cb: string)
    requires qa + "|f=" + fa + "|n=" + na + "|lang=" + la + "|c=" + ca
             == qb + "|f=" + fb + "|n=" + nb + "|lang=" + lb + "|c=" + cb
    requires '|' !in fa && '|' !in na && '|' !in la && '|' !in ca
    requires '|' !in fb && '|' !in nb && '|' !in lb && '|' !in cb
    ensures qa == qb && fa == fb && na == nb && la == lb && ca == cb
  {
    var a3, b3 := qa + "|f=" + fa + "|n=" + na, qb + "|f=" + fb + "|n=" + nb;
    assert "|c=" == "|" + "c=" && "|lang=" == "|" + "lang=" && "|n=" == "|" + "n=" && "|f=" == "|" + "f=";
    LastLabelled(a3 + "|lang=" + la, "c=", ca, b3 + "|lang=" + lb, cb);
    LastLabelled(a3, "lang=", la, b3, lb);
    LastLabelled(qa + "|f=" + fa, "n=", na, qb + "|f=" + fb, nb);
    LastLabelled(qa, "f=", fa, qb, fb);
  }

  function Fields(f: Freshness, n: nat): string { "|f=" + FreshnessName(f) + "|n=" + Decimal(n) + "|lang=" }

  lemma CanonicalFields(r: Request)
    ensures Canonical(r)
            == "q=" + r.query + Fields(r.freshness, r.maxResults) + OrEmpty(r.lang) + "|c=" + OrEmpty(r.country)
  {
  }

  // ---------- which requests share a key ----------

  /** One way to read a key string: which freshness and count it names, where their fields start and
      where the country's does. */
  datatype Cut = Cut(freshness: Freshness, n: nat, p: nat, r: nat)

  const COUNTRY := "|c="

  predicate IsCut(s: string, k: Cut) {
    var fields := Fields(k.freshness, k.n);
    2 <= k.p && OccursAt(s, fields, k.p) && k.p + |fields| <= k.r && OccursAt(s, COUNTRY, k.r)
  }

  /** The request that a cut reads. */
  function ReadCut(s: string, k: Cut): Request
    requires IsCut(s, k)
  {
    Request(s[2..k.p], k.freshness, k.n, Some(s[k.p + |Fields(k.freshness, k.n)|..k.r]), Some(s[k.r + |COUNTRY|..]))
  }

  /** Where the request itself puts its fields. */
  function Own(a: Request): Cut {
    var p := 2 + |a.query|;
    Cut(a.freshness, a.maxResults, p, p + |Fields(a.freshness, a.maxResults)| + |OrEmpty(a.lang)|)
  }

  lemma OwnIsCut(a: Request)
    ensures "q=" <= Canonical(a) && IsCut(Canonical(a), Own(a))
    ensures SameRequest(ReadCut(Canonical(a), Own(a)), a)
  {
    hide Fields, Canonical, OrEmpty;
    CanonicalFields(a);
    OrEmptySome(Canonical(a), Own(a));
  }

  lemma OrEmptySome(s: string, k: Cut)
    requires IsCut(s, k)
    ensures OrEmpty(ReadCut(s, k).lang) == s[k.p + |Fields(k.freshness, k.n)|..k.r]
    ensures OrEmpty(ReadCut(s, k).country) == s[k.r + |COUNTRY|..]
  {
    hide Fields;
  }

  lemma CutIsOwn(s: string, k: Cut)
    requires "q=" <= s && IsCut(s, k)
    ensures Canonical(ReadCut(s, k)) == s && Own(ReadCut(s, k)) == k
  {
    hide Fields, Canonical, OrEmpty;
    CanonicalFields(ReadCut(s, k));
    OrEmptySome(s, k);
    assert s[..2] == "q=";
  }

  lemma SameOwn(a: Request, b: Request)
    requires SameRequest(a, b)
    ensures Own(a) == Own(b)
  {
    hide Fields;
  }

  /** A request shares its key string with a different one iff the string can be read in another way:
      iff some freshness and count have their fields at another place in it, with the country's field
      behind them, or at the same place with the country's field at another. */
  lemma CollidesIff(a: Request)
    ensures (exists b :: Canonical(b) == Canonical(a) && !SameRequest(a, b))
            <==> exists k :: IsCut(Canonical(a), k) && k != Own(a)
  {
    hide Canonical, SameRequest, IsCut, Own, ReadCut;
    var s := Canonical(a);
    OwnIsCut(a);
    if b :| Canonical(b) == s && !SameRequest(a, b) {
      OwnIsCut(b);
      if Own(b) == Own(a) {
        SameRequestTransitive(a, ReadCut(s, Own(a)), b);
      }
    }
    if k :| IsCut(s, k) && k != Own(a) {
      CutIsOwn(s, k);
      if SameRequest(a, ReadCut(s, k)) {
        SameOwn(a, ReadCut(s, k));
      }
    }
  }

  /** What keeps plain requests apart: every other way to read the key string of one reads a separator
      into the language or the country. */
  lemma OtherCutsAreNotPlain(a: Request, k: Cut)
    requires PlainLocale(a) && IsCut(Canonical(a), k) && k != Own(a)
    ensures !PlainLocale(ReadCut(Canonical(a), k))
  {
    hide Canonical, SameRequest, IsCut, Own, ReadCut, PlainLocale;
    var b := ReadCut(Canonical(a), k);
    OwnIsCut(a);
    CutIsOwn(Canonical(a), k);
    if PlainLocale(b) {
      KeyInjective(a, b);
      SameOwn(a, b);
    }
  }

  lemma SameRequestTransitive(a: Request, x: Request, b: Request)
    requires SameRequest(x, a) && SameRequest(x, b)
    ensures SameRequest(a, b)
  {
  }

  /** A separator in the country can make two requests with different queries share a key. */
  lemma CountryCanCollide(query: string, f: Freshness, n: nat, lang: string)
    ensures var tail := Fields(f, n) + lang + "|c=";
            var a := Request(query, f, n, Some(lang), Some(tail));
            var b := Request(query + tail, f, n, Some(lang), None);
            Canonical(a) == Canonical(b) && !SameRequest(a, b)
  {
    var fields := Fields(f, n);
    var tail := fields + lang + "|c=";
    CanonicalFields(Request(query, f, n, Some(lang), Some(tail)));
    CanonicalFields(Request(query + tail, f, n, Some(lang), None));
    hide Canonical, Fields;
    var q := "q=" + query;
    assert q + fields + lang + "|c=" == q + tail;
    assert "q=" + (query + tail) == q + tail;
    assert (q + tail) + fields + lang + "|c=" + "" == (q + tail) + tail;
    assert |query + tail| != |query|;
  }

  /** And so can one in the language. */
  lemma LangCanCollide(query: string, f: Freshness, n: nat, lang: string, country: Option<string>)
    ensures var tail := Fields(f, n) + lang;
            var a := Request(query, f, n, Some(lang + tail), country);
            var b := Request(query + (Fields(f, n) + lang), f, n, Some(lang), country);
            Canonical(a) == Canonical(b) && !SameRequest(a, b)
  {
    var fields := Fields(f, n);
    var tail := fields + lang;
    CanonicalFields(Request(query, f, n, Some(lang + tail), country));
    CanonicalFields(Request(query + tail, f, n, Some(lang), country));
    assert |fields| > 0;
    hide Canonical, Fields;
    var q := "q=" + query;
    assert q + fields + (lang + tail) == (q + tail) + fields + lang;
    assert "q=" + (query + tail) == q + tail;
    assert |query + tail| != |query|;
  }

  // ---------- merging ----------

  datatype Result = Result(url: string, title: string, snippet: string, rank: nat)

  datatype Response = Response(results: seq<Result>, provider: string, querySent: string, latencyMs: nat)

  predicate Holds(results: seq<Result>, url: string) { exists r | r in results :: r.url == url }

  function Merged(first: seq<Result>, more: seq<Result>): seq<Result> {
    if more == [] then first
    else
      var m, r := Merged(first, more[..|more| - 1]), more[|more| - 1];
      if Holds(m, r.url) then m else m + [r.(rank := |m|)]
  }

  ghost predicate DistinctUrls(results: seq<Result>) {
    forall i, j | 0 <= i < j < |results| :: results[i].url != results[j].url
  }

  ghost predicate Contiguous(results: seq<Result>) {
    forall i | 0 <= i < |results| :: results[i].rank == i
  }

  /** The positions in `more` of the results that are new. */
  function NewAt(first: seq<Result>, more: seq<Result>): seq<nat> {
    if more == [] then []
    else
      var n := |more| - 1;
      NewAt(first, more[..n]) + if Holds(first, more[n].url) || Holds(more[..n], more[n].url) then [] else [n]
  }

  lemma {:induction false} MergedHolds(first: seq<Result>, more: seq<Result>, url: string)
    ensures Holds(Merged(first, more), url) <==> Holds(first, url) || Holds(more, url)
  {
    if more != [] {
      var n := |more| - 1;
      MergedHolds(first, more[..n], url);
      MergedHolds(first, more[..n], more[n].url);
      HoldsSnoc(more[..n], more[n], url);
      assert more == more[..n] + [more[n]];
      var m := Merged(first, more[..n]);
      HoldsSnoc(m, more[n].(rank := |m|), url);
      hide Holds, Merged;
      assert Merged(first, more) == if Holds(m, more[n].url) then m else m + [more[n].(rank := |m|)] by {
      }
    }
  }

  lemma HoldsSnoc(rs: seq<Result>, r: Result, url: string)
    ensures Holds(rs + [r], url) <==> Holds(rs, url) || r.url == url
  {
    if r.url == url {
      assert r in rs + [r];
    }
  }

  /** The merge keeps `first` as a prefix and appends, in order and numbered on, exactly the results
      of `more` whose URL neither `first` nor an earlier result of `more` has. */
  lemma {:induction false} MergeAppendsTheNew(first: seq<Result>, more: seq<Result>)
    ensures var m, at := Merged(first, more), NewAt(first, more);
            && |m| == |first| + |at| && m[..|first|] == first
            && (forall k | 0 <= k < |at| :: at[k] < |more| && m[|first| + k] == more[at[k]].(rank := |first| + k))
            && (forall k, l | 0 <= k < l < |at| :: at[k] < at[l])
  {
    if more != [] {
      var n := |more| - 1;
      MergeAppendsTheNew(first, more[..n]);
      MergedHolds(first, more[..n], more[n].url);
      var m, at := Merged(first, more[..n]), NewAt(first, more[..n]);
      hide Holds, Merged;
    }
  }

  lemma {:induction false} NewAtBelow(first: seq<Result>, more: seq<Result>)
    ensures forall k | k in NewAt(first, more) :: k < |more|
  {
    hide Holds;
    if more != [] {
      NewAtBelow(first, more[..|more| - 1]);
    }
  }

  lemma {:induction false} NewAtIff(first: seq<Result>, more: seq<Result>, i: nat)
    requires i < |more|
    ensures i in NewAt(first, more) <==> !Holds(first, more[i].url) && !Holds(more[..i], more[i].url)
  {
    hide Holds;
    var n := |more| - 1;
    if i < n {
      NewAtIff(first, more[..n], i);
      assert more[..n][..i] == more[..i];
    } else {
      NewAtBelow(first, more[..n]);
    }
  }

  lemma DistinctSnoc(m: seq<Result>, e: Result)
    requires !Holds(m, e.url)
    ensures DistinctUrls(m + [e]) <==> DistinctUrls(m)
  {
    var s := m + [e];
    assert forall k | 0 <= k < |m| :: s[k] == m[k] && m[k] in m;
    if !DistinctUrls(m) {
      var i, j :| 0 <= i < j < |m| && m[i].url == m[j].url;
      assert s[i].url == s[j].url;
    }
  }

  lemma ContiguousSnoc(m: seq<Result>, e: Result)
    requires e.rank == |m|
    ensures Contiguous(m + [e]) <==> Contiguous(m)
  {
    var s := m + [e];
    assert forall k | 0 <= k < |m| :: s[k] == m[k];
    if !Contiguous(m) {
      var i :| 0 <= i < |m| && m[i].rank != i;
      assert s[i].rank != i;
    }
  }

  /** Merging preserves distinct URLs and contiguous ranks, and cannot create them. */
  lemma {:induction false} MergeKeepsOrder(first: seq<Result>, more: seq<Result>)
    ensures DistinctUrls(Merged(first, more)) <==> DistinctUrls(first)
    ensures Contiguous(Merged(first, more)) <==> Contiguous(first)
  {
    if more != [] {
      MergeKeepsOrder(first, more[..|more| - 1]);
      var m, r := Merged(first, more[..|more| - 1]), more[|more| - 1];
      hide Merged, Holds, DistinctUrls, Contiguous;
      if !Holds(m, r.url) {
        DistinctSnoc(m, r.(rank := |m|));
        ContiguousSnoc(m, r.(rank := |m|));
      }
    }
  }

  // ---------- the route ----------

  /** What the two providers would answer to a request, `None` for `SearchUnavailable`. */
  datatype Providers = Providers(braveEnabled: bool, brave: Option<Response>,
                                 hasSearxng: bool, searxng: Option<Response>)

  const MIN_RESULTS := 3

  function SearxngOnly(p: Providers): Option<Response> {
    if p.hasSearxng then p.searxng else None
  }

  function Routed(p: Providers, query: string, latencyMs: nat): Option<Response> {
    var response :=
      if !p.braveEnabled || p.brave.None? then SearxngOnly(p)
      else if |p.brave.value.results| >= MIN_RESULTS || SearxngOnly(p).None? then p.brave
      else
        Some(Response(Merged(p.brave.value.results, p.searxng.value.results), "brave+searxng", query, 0));
    if response.Some? then Some(response.value.(latencyMs := latencyMs)) else None
  }

  function Capped(r: Response, maxResults: nat): Response {
    if |r.results| <= maxResults then r else r.(results := r.results[..maxResults])
  }

  /** `_augment_with_searxng`, given SearXNG's answer. */
  method AugmentWithSearxng(query: string, brave: Response, searxng: Option<Response>) returns (response: Response)
    ensures searxng.None? ==> response == brave
    ensures searxng.Some? ==>
              response == Response(Merged(brave.results, searxng.value.results), "brave+searxng", query,
                                   brave.latencyMs + searxng.value.latencyMs)
  {
    if searxng.None? {
      return brave;
    }
    hide Merged, Holds;
    var more := searxng.value.results;
    assert more[..0] == [];
    var seen := set r | r in brave.results :: r.url;
    var merged, nextRank := brave.results, |brave.results|;
    for i := 0 to |more|
      invariant merged == Merged(brave.results, more[..i]) && nextRank == |merged|
      invariant forall url :: url in seen <==> Holds(merged, url)
    {
      var result := more[i];
      assert more[..i + 1][..i] == more[..i];
      if result.url in seen {
        continue;
      }
      seen := seen + {result.url};
      forall url ensures url in seen <==> Holds(merged + [result.(rank := nextRank)], url) {
        HoldsSnoc(merged, result.(rank := nextRank), url);
      }
      merged := merged + [result.(rank := nextRank)];
      nextRank := nextRank + 1;
    }
    assert more[..|more|] == more;
    response := Response(merged, "brave+searxng", query, brave.latencyMs + searxng.value.latencyMs);
  }

  method Route(p: Providers, query: string, latencyMs: nat) returns (response: Option<Response>)
    ensures response == Routed(p, query, latencyMs)
  {
    if !p.braveEnabled || p.brave.None? {
      var r := SearxngOnly(p);
      return if r.Some? then Some(r.value.(latencyMs := latencyMs)) else None;
    }
    var brave := p.brave.value;
    if |brave.results| >= MIN_RESULTS || !p.hasSearxng {
      return Some(brave.(latencyMs := latencyMs));
    }
    var merged := AugmentWithSearxng(query, brave, p.searxng);
    return Some(merged.(latencyMs := latencyMs));
  }

  /** Whether Brave answers, and whether SearXNG would. */
  predicate BraveAnswers(p: Providers) { p.braveEnabled && p.brave.Some? }

  predicate SearxngAnswers(p: Providers) { p.hasSearxng && p.searxng.Some? }

  /** The route fails iff neither provider answers. Brave's answer, if there is one, comes first and stands
      alone if it has three results or SearXNG does not answer; else SearXNG's results with other URLs
      follow, all of them and numbered on. Without Brave's answer, SearXNG's is the whole of it. */
  lemma RouteProperties(p: Providers, query: string, latencyMs: nat)
    ensures var r := Routed(p, query, latencyMs);
            && (r.None? <==> !BraveAnswers(p) && !SearxngAnswers(p))
            && (r.Some? ==> r.value.latencyMs == latencyMs)
            && (BraveAnswers(p) && (|p.brave.value.results| >= 3 || !SearxngAnswers(p)) ==>
                  r.value == p.brave.value.(latencyMs := latencyMs))
            && (BraveAnswers(p) && |p.brave.value.results| < 3 && SearxngAnswers(p) ==>
                  MergesBoth(p.brave.value.results, p.searxng.value.results, r.value.results)
                  && r.value.provider == "brave+searxng" && r.value.querySent == query)
            && (!BraveAnswers(p) && SearxngAnswers(p) ==> r.value == p.searxng.value.(latencyMs := latencyMs))
  {
    if BraveAnswers(p) && SearxngAnswers(p) {
      MergesBothLists(p.brave.value.results, p.searxng.value.results);
    }
  }

  /** `all` is `first` followed by the results of `more` with new URLs: it has the URLs of both and no
      others, and goes on numbering; distinct URLs and contiguous ranks stay so. */
  ghost predicate MergesBoth(first: seq<Result>, more: seq<Result>, all: seq<Result>) {
    && first <= all
    && (forall url :: Holds(all, url) <==> Holds(first, url) || Holds(more, url))
    && (forall i: nat | |first| <= i < |all| :: IsNew(first, more, all[i], i))
    && (DistinctUrls(first) ==> DistinctUrls(all)) && (Contiguous(first) ==> Contiguous(all))
  }

  /** A result of `more`, renumbered, with a URL that `first` has not. */
  ghost predicate IsNew(first: seq<Result>, more: seq<Result>, x: Result, rank: nat) {
    x.rank == rank && !Holds(first, x.url) && exists r | r in more :: r.(rank := rank) == x
  }

  lemma MergesBothLists(first: seq<Result>, more: seq<Result>)
    ensures MergesBoth(first, more, Merged(first, more))
  {
    hide Merged, NewAt, Holds, DistinctUrls, Contiguous, IsNew;
    var all := Merged(first, more);
    MergeKeepsOrder(first, more);
    MergeAppendsTheNew(first, more);
    assert first <= all by {
      assert all[..|first|] == first;
    }
    forall url ensures Holds(all, url) <==> Holds(first, url) || Holds(more, url) {
      MergedHolds(first, more, url);
    }
    forall i: nat | |first| <= i < |all| ensures IsNew(first, more, all[i], i) {
      AppendedIsNew(first, more, i);
    }
  }

  lemma AppendedIsNew(first: seq<Result>, more: seq<Result>, i: nat)
    requires |first| <= i < |Merged(first, more)|
    ensures IsNew(first, more, Merged(first, more)[i], i)
  {
    hide Merged, NewAt, Holds;
    var at := NewAt(first, more);
    MergeAppendsTheNew(first, more);
    var k := i - |first|;
    var r := more[at[k]];
    assert Merged(first, more)[|first| + k] == r.(rank := i) && r in more;
    NewAtIff(first, more, at[k]);
  }

  // ---------- cached answers ----------

  /** SHA-256 and JSON, from elsewhere: `load` undoes `dump`. */
  datatype Codec = Codec(digest: string -> string, dump: Response -> string, load: string -> Response) {
    ghost predicate Valid() { forall r :: load(dump(r)) == r }
  }

  function Key(c: Codec, req: Request): string { c.digest(Canonical(req)) }

  /** What the cache returned, as a response; its numbers are never stored by this client. */
  function Loaded(c: Codec, v: Cache.Value): Option<Response> {
    match v case Number(_) => None case Other(json) => Some(c.load(json))
  }

  /** A search and what it meets: what the providers would answer, and the clock when the cache looks
      the key up, when the envelope is checked and when the response is handed to the cache. */
  datatype Ask = Ask(req: Request, p: Providers, latencyMs: nat, readAt: real, now: real, setAt: real)

  /** A client: its cache's version and default expiry. */
  datatype Client = Client(codec: Codec, version: int, ttl: real)

  /** `search`: the answer, or `None` if it raises, and the write it hands to the cache. */
  function Searched(c: Client, store: Cache.Store, a: Ask): (Option<Response>, Option<Cache.Write>) {
    match Cache.GetFrom(store, c.version, Key(c.codec, a.req), a.readAt, a.now)
    case Some(v) =>
      (match Loaded(c.codec, v) case None => None case Some(r) => Some(Capped(r, a.req.maxResults)), None)
    case None =>
      match Routed(a.p, a.req.query, a.latencyMs)
      case None => (None, None)
      case Some(live) =>
        (Some(Capped(live, a.req.maxResults)),
         Some(Cache.Stamped(c.version, Key(c.codec, a.req), Cache.Other(c.codec.dump(live)), c.ttl, a.setAt)))
  }

  method Search(codec: Codec, cache: Cache.DiskCacheBackend, a: Ask)
      returns (response: Option<Response>, write: Option<Cache.Write>)
    ensures (response, write) == Searched(Client(codec, cache.version, cache.ttlDefault), cache.store, a)
  {
    var key := Key(codec, a.req);
    var cached := cache.Get(key, a.readAt, a.now);
    if cached.Some? {
      var r := Loaded(codec, cached.value);
      return if r.Some? then Some(Capped(r.value, a.req.maxResults)) else None, None;
    }
    var live := Route(a.p, a.req.query, a.latencyMs);
    if live.None? {
      return None, None;
    }
    var w := cache.Set(key, Cache.Other(codec.dump(live.value)), None, a.setAt);
    return Some(Capped(live.value, a.req.maxResults)), Some(w);
  }

  // ---------- runs of searches over the cache ----------

  /** A step of a run: a search of this client, or anything else that happens to the cache. */
  datatype ClientStep = Asks(a: Ask) | Elsewhere(s: Cache.Step)

  /** Values of this version are written by this client's searches alone. */
  predicate NotOurs(s: Cache.Step, version: int) {
    match s
    case Issue(_, v, _, _, _) => v != version
    case Incr(v, _, _, _, _, _, _) => v != version
    case _ => true
  }

  ghost predicate OnlyWriter(c: Client, steps: seq<ClientStep>) {
    forall x | x in steps && x.Elsewhere? :: NotOurs(x.s, c.version)
  }

  /** What a search does to the cache is what the contract of `Search` says. */
  function CacheStep(c: Client, store: Cache.Store, x: ClientStep): Cache.Step {
    match x
    case Elsewhere(s) => s
    case Asks(a) =>
      match Searched(c, store, a).1
      case None => Cache.Idle
      case Some(w) => Cache.Issue(w.key, c.version, w.envelope.value, w.ttl, w.stampedAt)
  }

  function CacheSteps(c: Client, asInt: Cache.AsInt, steps: seq<ClientStep>): (r: seq<Cache.Step>)
    ensures |r| == |steps|
  {
    if steps == [] then []
    else
      var before := CacheSteps(c, asInt, steps[..|steps| - 1]);
      before + [CacheStep(c, Cache.Run(asInt, before).store, steps[|steps| - 1])]
  }

  /** The cache after the run. */
  function World(c: Client, asInt: Cache.AsInt, steps: seq<ClientStep>): Cache.World {
    Cache.Run(asInt, CacheSteps(c, asInt, steps))
  }

  predicate ClientTimedFrom(x: ClientStep, from: real, to: real) {
    match x
    case Asks(a) => from <= a.readAt <= a.now <= a.setAt <= to
    case Elsewhere(s) => Cache.TimedFrom(s, from, to)
  }

  ghost predicate ClientTimed(steps: seq<ClientStep>, ticks: seq<real>) {
    |ticks| == |steps| + 1 && forall i | 0 <= i < |steps| :: ClientTimedFrom(steps[i], ticks[i], ticks[i + 1])
  }

  lemma StepTimed(c: Client, store: Cache.Store, x: ClientStep, from: real, to: real)
    requires ClientTimedFrom(x, from, to)
    ensures Cache.TimedFrom(CacheStep(c, store, x), from, to)
  {
    hide Routed, Key, Loaded, Capped;
  }

  lemma {:induction false} StepsTimed(c: Client, asInt: Cache.AsInt, steps: seq<ClientStep>, ticks: seq<real>)
    requires ClientTimed(steps, ticks)
    ensures Cache.Timed(CacheSteps(c, asInt, steps), ticks)
  {
    hide CacheStep, ClientTimedFrom, Cache.TimedFrom, Cache.Run;
    if steps != [] {
      var n := |steps| - 1;
      var before := CacheSteps(c, asInt, steps[..n]);
      StepsTimed(c, asInt, steps[..n], ticks[..n + 1]);
      StepTimed(c, Cache.Run(asInt, before).store, steps[n], ticks[n], ticks[n + 1]);
    }
  }

  /** The write comes from search `k` of the run, which missed. */
  ghost predicate WrittenBy(c: Client, asInt: Cache.AsInt, steps: seq<ClientStep>, k: nat, x: Cache.Write) {
    && k < |steps| && steps[k].Asks?
    && Searched(c, World(c, asInt, steps[..k]).store, steps[k].a).1 == Some(x)
  }

  lemma WorldSnoc(c: Client, asInt: Cache.AsInt, steps: seq<ClientStep>)
    requires steps != []
    ensures var w := World(c, asInt, steps[..|steps| - 1]);
            World(c, asInt, steps) == Cache.Next(asInt, w, CacheStep(c, w.store, steps[|steps| - 1]))
  {
    hide CacheStep, Cache.Next;
    var before := CacheSteps(c, asInt, steps[..|steps| - 1]);
    Cache.RunSnoc(asInt, before, CacheStep(c, Cache.Run(asInt, before).store, steps[|steps| - 1]));
  }

  lemma StepIssues(c: Client, asInt: Cache.AsInt, w: Cache.World, s: ClientStep, x: Cache.Write)
    requires s.Elsewhere? ==> NotOurs(s.s, c.version)
    requires x in Cache.Next(asInt, w, CacheStep(c, w.store, s)).issued && x.envelope.version == c.version
    ensures x in w.issued || (s.Asks? && Searched(c, w.store, s.a).1 == Some(x))
  {
    hide Cache.Incremented, Routed, Key, Loaded, Capped, Cache.GetFrom;
  }

  lemma {:induction false} IssuedBySearch(c: Client, asInt: Cache.AsInt, steps: seq<ClientStep>, x: Cache.Write)
    requires OnlyWriter(c, steps) && x in World(c, asInt, steps).issued && x.envelope.version == c.version
    ensures exists k: nat :: WrittenBy(c, asInt, steps, k, x)
  {
    hide World, Searched, CacheStep, Cache.Next;
    if steps == [] {
      NothingIssued(c, asInt);
    } else {
      var n := |steps| - 1;
      var w := World(c, asInt, steps[..n]);
      assert steps[n] in steps;
      WorldSnoc(c, asInt, steps);
      StepIssues(c, asInt, w, steps[n], x);
      if x in w.issued {
        IssuedBySearch(c, asInt, steps[..n], x);
        var k: nat :| WrittenBy(c, asInt, steps[..n], k, x);
        assert steps[..n][..k] == steps[..k];
        assert WrittenBy(c, asInt, steps, k, x);
      } else {
        assert WrittenBy(c, asInt, steps, n, x);
      }
    }
  }

  lemma NothingIssued(c: Client, asInt: Cache.AsInt)
    ensures World(c, asInt, []).issued == []
  {
  }

  /** The digest does not confuse this request with another of the run. */
  ghost predicate CollisionFree(codec: Codec, steps: seq<ClientStep>, req: Request) {
    forall x | x in steps && x.Asks? && Key(codec, x.a.req) == Key(codec, req) :: Canonical(x.a.req) == Canonical(req)
  }

  /** The first `n` results, or all there are, and the rest as it was. */
  predicate IsCap(answer: Response, whole: Response, n: nat) {
    && answer == whole.(results := answer.results) && answer.results <= whole.results
    && |answer.results| == if |whole.results| <= n then |whole.results| else n
  }

  /** Search `k` of the run missed the cache, for the same request as `req`. */
  ghost predicate MissedFor(c: Client, asInt: Cache.AsInt, steps: seq<ClientStep>, k: nat, req: Request) {
    && k < |steps| && steps[k].Asks? && SameRequest(steps[k].a.req, req)
    && var b := steps[k].a;
    && Cache.GetFrom(World(c, asInt, steps[..k]).store, c.version, Key(c.codec, b.req), b.readAt, b.now) == None
    && Routed(b.p, b.req.query, b.latencyMs).Some?
  }

  /** In any run of searches and of whatever else happens to the cache, a cached answer is what the live
      route answered to an earlier search for the same request, cut to at most `maxResults` results:
      the very answer that search gave, however the cache's writes were delayed or lost. */
  lemma CachedAnswerWasLive(c: Client, asInt: Cache.AsInt, steps: seq<ClientStep>, ticks: seq<real>, a: Ask)
    requires c.codec.Valid() && ClientTimed(steps, ticks) && OnlyWriter(c, steps)
    requires CollisionFree(c.codec, steps, a.req) && PlainLocale(a.req)
    requires forall x | x in steps && x.Asks? :: PlainLocale(x.a.req)
    requires Cache.GetFrom(World(c, asInt, steps).store, c.version, Key(c.codec, a.req), a.readAt, a.now).Some?
    ensures exists k | 0 <= k < |steps| ::
              && MissedFor(c, asInt, steps, k, a.req)
              && var b := steps[k].a;
              var answer := Capped(Routed(b.p, b.req.query, b.latencyMs).value, a.req.maxResults);
              && Searched(c, World(c, asInt, steps).store, a).0 == Some(answer)
              && Searched(c, World(c, asInt, steps[..k]).store, b).0 == Some(answer)
              && IsCap(answer, Routed(b.p, b.req.query, b.latencyMs).value, a.req.maxResults)
  {
    hide World, Searched, Key, Canonical, PlainLocale, SameRequest, Cache.GetFrom, Cache.Run, Cache.Timed, ClientTimed,
      OnlyWriter, MissedFor;
    var key := Key(c.codec, a.req);
    StepsTimed(c, asInt, steps, ticks);
    WorldIsRun(c, asInt, steps);
    Cache.HitWasWritten(asInt, CacheSteps(c, asInt, steps), ticks, c.version, key, a.readAt, a.now);
    var w := World(c, asInt, steps);
    var hit := Cache.GetFrom(w.store, c.version, key, a.readAt, a.now).value;
    var x :| x in w.issued && x.key == key && x.envelope.version == c.version && x.envelope.value == hit;
    IssuedBySearch(c, asInt, steps, x);
    var k: nat :| WrittenBy(c, asInt, steps, k, x);
    assert steps[k] in steps;
    WriterMissed(c, World(c, asInt, steps[..k]).store, steps[k].a, x);
    KeyInjective(steps[k].a.req, a.req);
    HitRepeats(c, asInt, steps, k, a, x);
  }

  lemma WorldIsRun(c: Client, asInt: Cache.AsInt, steps: seq<ClientStep>)
    ensures World(c, asInt, steps) == Cache.Run(asInt, CacheSteps(c, asInt, steps))
  {
    hide CacheSteps;
  }

  lemma WriterMissed(c: Client, store: Cache.Store, b: Ask, x: Cache.Write)
    requires Searched(c, store, b).1 == Some(x)
    ensures Cache.GetFrom(store, c.version, Key(c.codec, b.req), b.readAt, b.now) == None
    ensures var live := Routed(b.p, b.req.query, b.latencyMs);
            && live.Some? && x.key == Key(c.codec, b.req) && x.envelope.value == Cache.Other(c.codec.dump(live.value))
            && Searched(c, store, b).0 == Some(Capped(live.value, b.req.maxResults))
  {
    hide Routed, Key, Capped, Cache.GetFrom;
  }

  lemma HitRepeats(c: Client, asInt: Cache.AsInt, steps: seq<ClientStep>, k: nat, a: Ask, x: Cache.Write)
    requires c.codec.Valid() && WrittenBy(c, asInt, steps, k, x) && SameRequest(steps[k].a.req, a.req)
    requires Cache.GetFrom(World(c, asInt, steps).store, c.version, Key(c.codec, a.req), a.readAt, a.now)
             == Some(x.envelope.value)
    ensures MissedFor(c, asInt, steps, k, a.req)
    ensures var b := steps[k].a;
            var answer := Capped(Routed(b.p, b.req.query, b.latencyMs).value, a.req.maxResults);
            && Searched(c, World(c, asInt, steps).store, a).0 == Some(answer)
            && Searched(c, World(c, asInt, steps[..k]).store, b).0 == Some(answer)
            && IsCap(answer, Routed(b.p, b.req.query, b.latencyMs).value, a.req.maxResults)
  {
    hide World, Key, Cache.GetFrom, Routed;
    WriterMissed(c, World(c, asInt, steps[..k]).store, steps[k].a, x);
  }

}
