/** Ranking the search results: a stable sort by score, then three greedy filters. */
module Rerank {
  import opened Sorting
  import opened Wrappers
  import Canonical
  import Strings

  datatype Result = Result(url: string, title: string, snippet: string)

  datatype Ranked = Ranked(result: Result, score: real, rank: nat)

  /** What the ranking takes from elsewhere: the canonical URL (`None` where `canonicalize` raises),
      the host name, and the set of folded word tokens of a text. */
  datatype Texts = Texts(canon: string -> Option<string>, domain: string -> string, tokens: string -> set<string>)

  const NEAR := 85 // percent

  // ---------- greedy filters ----------

  /** Keep an element iff `keep` lets it in beside the elements kept before it. */
  function Greedy<T>(rows: seq<T>, keep: (seq<T>, T) -> bool): seq<T> {
    if rows == [] then []
    else
      var kept, row := Greedy(rows[..|rows| - 1], keep), rows[|rows| - 1];
      if keep(kept, row) then kept + [row] else kept
  }

  /** The positions a greedy filter keeps. */
  function Kept<T>(rows: seq<T>, keep: (seq<T>, T) -> bool): seq<nat> {
    if rows == [] then []
    else
      var n := |rows| - 1;
      var at := Kept(rows[..n], keep);
      if keep(Greedy(rows[..n], keep), rows[n]) then at + [n] else at
  }

  ghost predicate Increasing(at: seq<nat>) {
    forall i, j | 0 <= i < j < |at| :: at[i] < at[j]
  }

  /** `a` is the subsequence of `b` at the positions `at`. */
  ghost predicate Picks<T(!new)>(a: seq<T>, b: seq<T>, at: seq<nat>) {
    |at| == |a| && Increasing(at) && forall i | 0 <= i < |a| :: at[i] < |b| && b[at[i]] == a[i]
  }

  ghost predicate Subsequence<T(!new)>(a: seq<T>, b: seq<T>) {
    exists at :: Picks(a, b, at)
  }

  lemma GreedyOfPrefix<T>(rows: seq<T>, keep: (seq<T>, T) -> bool, i: nat)
    requires i < |rows|
    ensures Greedy(rows[..i + 1], keep)
            == Greedy(rows[..i], keep) + if keep(Greedy(rows[..i], keep), rows[i]) then [rows[i]] else []
  {
    assert rows[..i + 1][..i] == rows[..i];
  }

  lemma {:induction false} GreedyGrows<T>(rows: seq<T>, keep: (seq<T>, T) -> bool, i: nat)
    requires i <= |rows|
    ensures Greedy(rows[..i], keep) <= Greedy(rows, keep)
    decreases |rows| - i
  {
    if i == |rows| {
      assert rows[..i] == rows;
    } else {
      GreedyOfPrefix(rows, keep, i);
      GreedyGrows(rows, keep, i + 1);
    }
  }

  lemma {:induction false} KeptPicks<T(!new)>(rows: seq<T>, keep: (seq<T>, T) -> bool)
    ensures Picks(Greedy(rows, keep), rows, Kept(rows, keep))
  {
    if rows != [] {
      var n := |rows| - 1;
      KeptPicks(rows[..n], keep);
      var at := Kept(rows[..n], keep);
      assert forall i | 0 <= i < |at| :: at[i] < n && rows[..n][at[i]] == rows[at[i]];
    }
  }

  lemma {:induction false} KeptIff<T>(rows: seq<T>, keep: (seq<T>, T) -> bool, i: nat)
    requires i < |rows|
    ensures i in Kept(rows, keep) <==> keep(Greedy(rows[..i], keep), rows[i])
  {
    var n := |rows| - 1;
    if i < n {
      KeptIff(rows[..n], keep, i);
      assert rows[..n][..i] == rows[..i];
    } else {
      KeptBelow(rows[..n], keep);
    }
  }

  lemma {:induction false} KeptBelow<T>(rows: seq<T>, keep: (seq<T>, T) -> bool)
    ensures forall k | k in Kept(rows, keep) :: k < |rows|
  {
    if rows != [] {
      KeptBelow(rows[..|rows| - 1], keep);
    }
  }

  /** A greedy filter keeps a subsequence, and drops the element at a position iff `keep` refuses it
      beside those kept earlier, all of which are in the result. */
  lemma GreedyKeepsExactly<T(!new)>(rows: seq<T>, keep: (seq<T>, T) -> bool)
    ensures Picks(Greedy(rows, keep), rows, Kept(rows, keep))
    ensures forall i | 0 <= i < |rows| ::
              && (i in Kept(rows, keep) <==> keep(Greedy(rows[..i], keep), rows[i]))
              && Greedy(rows[..i], keep) <= Greedy(rows, keep)
  {
    hide Greedy, Kept, Picks;
    KeptPicks(rows, keep);
    forall i | 0 <= i < |rows|
      ensures (i in Kept(rows, keep) <==> keep(Greedy(rows[..i], keep), rows[i]))
      ensures Greedy(rows[..i], keep) <= Greedy(rows, keep)
    {
      KeptIff(rows, keep, i);
      GreedyGrows(rows, keep, i);
    }
  }

  /** Filtering again drops nothing. */
  lemma {:induction false} GreedyIdempotent<T>(rows: seq<T>, keep: (seq<T>, T) -> bool)
    ensures Greedy(Greedy(rows, keep), keep) == Greedy(rows, keep)
  {
    if rows != [] {
      var kept, row := Greedy(rows[..|rows| - 1], keep), rows[|rows| - 1];
      GreedyIdempotent(rows[..|rows| - 1], keep);
      if keep(kept, row) {
        assert (kept + [row])[..|kept|] == kept;
      }
    }
  }

  lemma PicksTransitive<T(!new)>(a: seq<T>, b: seq<T>, c: seq<T>, at: seq<nat>, bt: seq<nat>)
    requires Picks(a, b, at) && Picks(b, c, bt)
    ensures Subsequence(a, c)
  {
    var ct: seq<nat> := seq(|a|, i requires 0 <= i < |a| => bt[at[i]]);
    assert Picks(a, c, ct);
  }

  lemma SubsequenceTransitive<T(!new)>(a: seq<T>, b: seq<T>, c: seq<T>)
    requires Subsequence(a, b) && Subsequence(b, c)
    ensures Subsequence(a, c)
  {
    var at, bt :| Picks(a, b, at) && Picks(b, c, bt);
    PicksTransitive(a, b, c, at, bt);
  }

  lemma GreedySubsequence<T(!new)>(rows: seq<T>, keep: (seq<T>, T) -> bool)
    ensures Subsequence(Greedy(rows, keep), rows)
  {
    GreedyKeepsExactly(rows, keep);
  }

  lemma PrefixSubsequence<T(!new)>(a: seq<T>, n: nat)
    requires n <= |a|
    ensures Subsequence(a[..n], a)
  {
    var at: seq<nat> := seq(n, i => i);
    assert Picks(a[..n], a, at);
  }

  // ---------- the three filters, as specifications ----------

  function FreshUrl(t: Texts): (seq<Ranked>, Ranked) -> bool {
    (kept: seq<Ranked>, row: Ranked) => forall k | k in kept :: t.canon(k.result.url) != t.canon(row.result.url)
  }

  function OfDomain(rows: seq<Ranked>, t: Texts, d: string): nat {
    if rows == [] then 0
    else
      OfDomain(rows[..|rows| - 1], t, d) + if t.domain(rows[|rows| - 1].result.url) == d then 1 else 0
  }

  function UnderCap(t: Texts, cap: int): (seq<Ranked>, Ranked) -> bool {
    (kept: seq<Ranked>, row: Ranked) => OfDomain(kept, t, t.domain(row.result.url)) < cap
  }

  function TextOf(row: Ranked): string {
    Strings.Strip(row.result.title + "\n" + row.result.snippet)
  }

  /** A Jaccard similarity of at least 0.85; two texts without words are alike, and a text without
      words is unlike any other. */
  predicate Near(a: set<string>, b: set<string>) {
    if a == {} && b == {} then true
    else if a == {} || b == {} then false
    else 100 * |a * b| >= NEAR * |a + b|
  }

  function Unlike(t: Texts): (seq<Ranked>, Ranked) -> bool {
    (kept: seq<Ranked>, row: Ranked) =>
      forall k | k in kept :: !Near(t.tokens(TextOf(row)), t.tokens(TextOf(k)))
  }

  predicate ByScore(x: Ranked, y: Ranked) { x.score >= y.score }

  /** Python's `s[:n]`, for any `n`. */
  function Take<T>(s: seq<T>, n: int): seq<T> {
    if n < 0 then (if |s| + n < 0 then [] else s[..|s| + n]) else if n > |s| then s else s[..n]
  }

  function Scored(rows: seq<Result>, scores: seq<real>): seq<Ranked> {
    var n := if |rows| < |scores| then |rows| else |scores|;
    seq(n, i requires 0 <= i < n => Ranked(rows[i], scores[i], i))
  }

  function Renumbered(rows: seq<Ranked>): seq<Ranked> {
    seq(|rows|, i requires 0 <= i < |rows| => rows[i].(rank := i))
  }

  /** All candidates that were scored, best first, ties in their original order. */
  function Order(candidates: seq<Result>, scores: seq<real>, maxCandidates: int): seq<Ranked> {
    StableSort(Scored(Take(candidates, maxCandidates), scores), ByScore)
  }

  function Capped(rows: seq<Ranked>, t: Texts, cap: int): seq<Ranked> {
    if cap < 1 then [] else Greedy(rows, UnderCap(t, cap))
  }

  function Filtered(rows: seq<Ranked>, t: Texts, cap: int): seq<Ranked> {
    Greedy(Capped(Greedy(rows, FreshUrl(t)), t, cap), Unlike(t))
  }

  // ---------- the code ----------

  method DropRepeatedUrls(ranked: seq<Ranked>, t: Texts) returns (unique: Option<seq<Ranked>>)
    ensures unique.None? <==> exists row | row in ranked :: t.canon(row.result.url).None?
    ensures unique.Some? ==> unique.value == Greedy(ranked, FreshUrl(t))
  {
    var urls: set<string>, kept: seq<Ranked> := {}, [];
    for i := 0 to |ranked|
      invariant kept == Greedy(ranked[..i], FreshUrl(t))
      invariant forall row | row in ranked[..i] :: t.canon(row.result.url).Some?
      invariant forall k | k in kept :: t.canon(k.result.url).Some? && t.canon(k.result.url).value in urls
      invariant forall s | s in urls :: exists k | k in kept :: t.canon(k.result.url) == Some(s)
    {
      var row := ranked[i];
      GreedyOfPrefix(ranked, FreshUrl(t), i);
      var key := t.canon(row.result.url);
      if key.None? {
        return None;
      }
      if key.value in urls {
        continue;
      }
      urls := urls + {key.value};
      kept := kept + [row];
      assert row in kept;
    }
    assert ranked[..|ranked|] == ranked;
    unique := Some(kept);
  }

  lemma NoneOfDomain(t: Texts)
    ensures forall d :: OfDomain([], t, d) == 0
  {
  }

  /** A `Counter`'s answer: 0 for a key it has not seen. */
  function CountOf(counts: map<string, int>, d: string): int {
    if d in counts then counts[d] else 0
  }

  lemma DomainSnoc(rows: seq<Ranked>, row: Ranked, t: Texts, d: string)
    ensures OfDomain(rows + [row], t, d) == OfDomain(rows, t, d) + if t.domain(row.result.url) == d then 1 else 0
  {
    assert (rows + [row])[..|rows|] == rows;
  }

  method ApplyPerDomainCap(items: seq<Ranked>, t: Texts, cap: int) returns (kept: seq<Ranked>)
    ensures kept == Capped(items, t, cap)
  {
    hide Greedy, OfDomain;
    if cap < 1 {
      return [];
    }
    var counts: map<string, int> := map[];
    kept := [];
    assert items[..0] == [] && Greedy(items[..0], UnderCap(t, cap)) == [] by { EmptyGreedy(UnderCap(t, cap)); }
    NoneOfDomain(t);
    for i := 0 to |items|
      invariant kept == Greedy(items[..i], UnderCap(t, cap))
      invariant forall d :: CountOf(counts, d) == OfDomain(kept, t, d)
    {
      var domain := t.domain(items[i].result.url);
      GreedyOfPrefix(items, UnderCap(t, cap), i);
      var count := CountOf(counts, domain);
      if count >= cap {
        continue;
      }
      counts := counts[domain := count + 1];
      forall d ensures CountOf(counts, d) == OfDomain(kept + [items[i]], t, d) {
        DomainSnoc(kept, items[i], t, d);
      }
      kept := kept + [items[i]];
    }
    assert items[..|items|] == items;
  }

  /** Whether `text` is near any text seen before. */
  method AnyNear(text: string, seenTexts: seq<string>, t: Texts) returns (near: bool)
    ensures near <==> exists k | 0 <= k < |seenTexts| :: Near(t.tokens(text), t.tokens(seenTexts[k]))
  {
    hide Near;
    for j := 0 to |seenTexts|
      invariant forall k | 0 <= k < j :: !Near(t.tokens(text), t.tokens(seenTexts[k]))
    {
      if Near(t.tokens(text), t.tokens(seenTexts[j])) {
        return true;
      }
    }
    near := false;
  }

  method DropNearDuplicates(items: seq<Ranked>, t: Texts) returns (kept: seq<Ranked>)
    ensures kept == Greedy(items, Unlike(t))
  {
    hide Near, TextOf, Greedy;
    var seenTexts: seq<string> := [];
    kept := [];
    assert items[..0] == [] && Greedy(items[..0], Unlike(t)) == [] by { EmptyGreedy(Unlike(t)); }
    for i := 0 to |items|
      invariant kept == Greedy(items[..i], Unlike(t))
      invariant |seenTexts| == |kept| && forall k | 0 <= k < |kept| :: seenTexts[k] == TextOf(kept[k])
    {
      var text := TextOf(items[i]);
      GreedyOfPrefix(items, Unlike(t), i);
      var near := AnyNear(text, seenTexts, t);
      if near {
        continue;
      }
      kept := kept + [items[i]];
      seenTexts := seenTexts + [text];
    }
    assert items[..|items|] == items;
  }

  lemma EmptyGreedy<T>(keep: (seq<T>, T) -> bool)
    ensures Greedy([], keep) == []
  {
  }

  /** Some score is not one, or `canonicalize` raises for some URL. */
  predicate Unrankable(order: seq<Ranked>, t: Texts) {
    exists row | row in order :: !(0.0 <= row.score <= 1.0) || t.canon(row.result.url).None?
  }

  method AssignRanks(rows: seq<Ranked>) returns (final: seq<Ranked>)
    ensures final == Renumbered(rows)
  {
    final := rows;
    for i := 0 to |final|
      invariant |final| == |rows|
      invariant forall k | 0 <= k < |final| :: final[k] == if k < i then rows[k].(rank := k) else rows[k]
    {
      final := final[i := final[i].(rank := i)];
    }
  }

  /** `rerank`, given the scores of the first `maxCandidates`; `None` if it raises. */
  method Rerank(candidates: seq<Result>, scores: seq<real>, t: Texts, topK: int, cap: int, maxCandidates: int)
      returns (r: Option<seq<Ranked>>)
    ensures candidates == [] || topK <= 0 ==> r == Some([])
    ensures candidates != [] && topK > 0 ==>
              var order := Order(candidates, scores, maxCandidates);
              && (r.None? <==> Unrankable(order, t))
              && (r.Some? ==> r.value == Renumbered(Take(Filtered(order, t, cap), topK)))
  {
    hide Greedy, StableSort, Sorted, Take, Renumbered, Scored;
    if candidates == [] || topK <= 0 {
      return Some([]);
    }
    var rows := Scored(Take(candidates, maxCandidates), scores);
    var ranked := StableSort(rows, ByScore);
    SortedMembers(rows);
    if exists row | row in rows :: !(0.0 <= row.score <= 1.0) {
      return None;
    }
    var unique := DropRepeatedUrls(ranked, t);
    if unique.None? {
      return None;
    }
    var diversified := ApplyPerDomainCap(unique.value, t, cap);
    var deduped := DropNearDuplicates(diversified, t);
    var final := AssignRanks(Take(deduped, topK));
    r := Some(final);
  }

  // ---------- near-duplicates ----------

  /** Near is a Jaccard similarity of at least 0.85, of the words two texts share to the words of either. */
  lemma NearIff(a: set<string>, b: set<string>)
    ensures Near(a, b) <==> (a == {} && b == {}) || (a + b != {} && |a * b| as real / |a + b| as real >= 0.85)
    ensures Near(a, b) <==> Near(b, a)
  {
    assert a * b == b * a && a + b == b + a;
    if a == {} || b == {} {
      assert a * b == {};
    } else {
      assert a + b != {};
      var m, n := |a * b|, |a + b|;
      assert m as real / n as real >= 0.85 <==> m as real >= 0.85 * n as real by {
        Quotient(m as real, n as real, 0.85);
      }
    }
  }

  lemma Quotient(x: real, y: real, z: real)
    requires y > 0.0
    ensures x / y >= z <==> x >= z * y
  {
    var q := x / y;
    assert q * y == x;
    if q >= z {
      assert (q - z) * y >= 0.0;
    } else {
      assert (z - q) * y > 0.0;
    }
  }

  /** The text compared is the title and the snippet, on two lines. */
  lemma TextOfIs(row: Ranked)
    ensures var title, snippet := row.result.title, row.result.snippet;
            title != "" && snippet != ""
            && !Strings.IsSpace(title[0]) && !Strings.IsSpace(snippet[|snippet| - 1]) ==>
              TextOf(row) == title + "\n" + snippet
  {
    var title, snippet := row.result.title, row.result.snippet;
    if title != "" && snippet != "" {
      var s := title + "\n" + snippet;
      assert s[0] == title[0] && s[|s| - 1] == snippet[|snippet| - 1];
    }
  }

  // ---------- what the ranking promises ----------

  lemma SortedMembers(rows: seq<Ranked>)
    ensures forall row :: row in StableSort(rows, ByScore) <==> row in rows
    ensures Sorted(StableSort(rows, ByScore), ByScore)
  {
    StableSortProperties(rows, ByScore);
    forall row ensures row in StableSort(rows, ByScore) <==> row in rows {
      assert row in multiset(rows) <==> row in rows;
      assert row in multiset(StableSort(rows, ByScore)) <==> row in StableSort(rows, ByScore);
    }
  }

  ghost predicate DistinctUrls(rows: seq<Ranked>, t: Texts) {
    forall i, j | 0 <= i < j < |rows| :: t.canon(rows[i].result.url) != t.canon(rows[j].result.url)
  }

  ghost predicate WithinCap(rows: seq<Ranked>, t: Texts, cap: int) {
    forall d :: OfDomain(rows, t, d) <= cap
  }

  ghost predicate PairwiseUnlike(rows: seq<Ranked>, t: Texts) {
    forall i, j | 0 <= i < j < |rows| :: !Near(t.tokens(TextOf(rows[j])), t.tokens(TextOf(rows[i])))
  }

  lemma {:induction false} FreshUrlsAreDistinct(rows: seq<Ranked>, t: Texts)
    ensures DistinctUrls(Greedy(rows, FreshUrl(t)), t)
  {
    if rows != [] {
      FreshUrlsAreDistinct(rows[..|rows| - 1], t);
    }
  }

  lemma {:induction false} UnderCapStaysWithin(rows: seq<Ranked>, t: Texts, cap: int)
    requires cap >= 1
    ensures WithinCap(Greedy(rows, UnderCap(t, cap)), t, cap)
  {
    if rows != [] {
      var n := |rows| - 1;
      var kept := Greedy(rows[..n], UnderCap(t, cap));
      UnderCapStaysWithin(rows[..n], t, cap);
      assert (kept + [rows[n]])[..|kept|] == kept;
    }
  }

  lemma {:induction false} UnlikeStaysPairwise(rows: seq<Ranked>, t: Texts)
    ensures PairwiseUnlike(Greedy(rows, Unlike(t)), t)
  {
    if rows != [] {
      UnlikeStaysPairwise(rows[..|rows| - 1], t);
    }
  }

  lemma DistinctBelow(a: seq<Ranked>, b: seq<Ranked>, t: Texts)
    requires Subsequence(a, b) && DistinctUrls(b, t)
    ensures DistinctUrls(a, t)
  {
    var at :| Picks(a, b, at);
    forall i, j | 0 <= i < j < |a| ensures t.canon(a[i].result.url) != t.canon(a[j].result.url) {
      assert at[i] < at[j];
      assert b[at[i]] == a[i] && b[at[j]] == a[j];
    }
  }

  lemma {:induction false} FewerBelow(a: seq<Ranked>, b: seq<Ranked>, at: seq<nat>, t: Texts, d: string)
    requires Picks(a, b, at)
    ensures OfDomain(a, t, d) <= OfDomain(b, t, d)
    decreases |b|
  {
    if a != [] {
      var m, n := |a| - 1, |b| - 1;
      assert b[at[m]] == a[m];
      if at[m] == n {
        FewerBelow(a[..m], b[..n], at[..m], t, d);
      } else {
        assert forall i | 0 <= i < |a| :: at[i] <= at[m];
        FewerBelow(a, b[..n], at, t, d);
      }
    }
  }

  lemma WithinBelow(a: seq<Ranked>, b: seq<Ranked>, t: Texts, cap: int)
    requires Subsequence(a, b) && WithinCap(b, t, cap)
    ensures WithinCap(a, t, cap)
  {
    var at :| Picks(a, b, at);
    forall d ensures OfDomain(a, t, d) <= cap {
      FewerBelow(a, b, at, t, d);
    }
  }

  lemma EmptyWithinCap(t: Texts)
    ensures WithinCap([], t, 0)
  {
    NoneOfDomain(t);
  }

  /** A row is dropped as a repetition iff some row before it has its canonical URL, kept or not. */
  lemma RepeatedIff(rows: seq<Ranked>, t: Texts, i: nat)
    requires i < |rows|
    ensures i !in Kept(rows, FreshUrl(t))
            <==> exists j | 0 <= j < i :: t.canon(rows[j].result.url) == t.canon(rows[i].result.url)
  {
    KeptIff(rows, FreshUrl(t), i);
    FreshHolds(rows[..i], t, t.canon(rows[i].result.url));
    hide Greedy, Kept;
    assert forall j | 0 <= j < i :: rows[..i][j] == rows[j] && rows[j] in rows[..i];
  }

  lemma {:induction false} FreshHolds(rows: seq<Ranked>, t: Texts, key: Option<string>)
    ensures (exists k | k in Greedy(rows, FreshUrl(t)) :: t.canon(k.result.url) == key)
            <==> exists k | k in rows :: t.canon(k.result.url) == key
  {
    if rows != [] {
      var before, row := rows[..|rows| - 1], rows[|rows| - 1];
      FreshHolds(before, t, key);
      FreshHolds(before, t, t.canon(row.result.url));
      assert rows == before + [row];
    }
  }

  /** A row is dropped by the cap iff its domain has its share in the rows kept before, and as a
      near-duplicate iff it is near to one of them. */
  lemma DroppedIff(rows: seq<Ranked>, t: Texts, cap: int, i: nat)
    requires i < |rows|
    ensures i !in Kept(rows, UnderCap(t, cap))
            <==> OfDomain(Greedy(rows[..i], UnderCap(t, cap)), t, t.domain(rows[i].result.url)) >= cap
    ensures i !in Kept(rows, Unlike(t))
            <==> exists k | k in Greedy(rows[..i], Unlike(t)) :: Near(t.tokens(TextOf(rows[i])), t.tokens(TextOf(k)))
  {
    hide Greedy, OfDomain, Near, TextOf;
    KeptIff(rows, UnderCap(t, cap), i);
    KeptIff(rows, Unlike(t), i);
  }

  lemma FilteredProperties(rows: seq<Ranked>, t: Texts, cap: int)
    ensures var f := Filtered(rows, t, cap);
            && Subsequence(f, rows) && DistinctUrls(f, t) && PairwiseUnlike(f, t)
            && WithinCap(f, t, if cap < 1 then 0 else cap)
  {
    hide Subsequence, DistinctUrls, PairwiseUnlike, WithinCap, FreshUrl, UnderCap, Unlike, Greedy;
    var unique := Greedy(rows, FreshUrl(t));
    var capped := Capped(unique, t, cap);
    var f := Greedy(capped, Unlike(t));
    GreedySubsequence(rows, FreshUrl(t));
    if cap < 1 {
      PrefixSubsequence(unique, 0);
      EmptyWithinCap(t);
    } else {
      GreedySubsequence(unique, UnderCap(t, cap));
      UnderCapStaysWithin(unique, t, cap);
    }
    GreedySubsequence(capped, Unlike(t));
    FreshUrlsAreDistinct(rows, t);
    UnlikeStaysPairwise(capped, t);
    SubsequenceTransitive(f, capped, unique);
    SubsequenceTransitive(f, unique, rows);
    DistinctBelow(f, unique, t);
    WithinBelow(f, capped, t, if cap < 1 then 0 else cap);
  }

  /** `rows` without their ranks. */
  function Unranked(rows: seq<Ranked>): seq<(Result, real)> {
    seq(|rows|, i requires 0 <= i < |rows| => (rows[i].result, rows[i].score))
  }

  lemma {:induction false} RanksDoNotCount(a: seq<Ranked>, b: seq<Ranked>, t: Texts, d: string)
    requires |a| == |b| && forall i | 0 <= i < |a| :: a[i].result == b[i].result
    ensures OfDomain(a, t, d) == OfDomain(b, t, d)
  {
    if a != [] {
      RanksDoNotCount(a[..|a| - 1], b[..|b| - 1], t, d);
    }
  }

  lemma RenumberedProperties(rows: seq<Ranked>, t: Texts, cap: int)
    requires DistinctUrls(rows, t) && PairwiseUnlike(rows, t) && WithinCap(rows, t, cap)
    ensures var r := Renumbered(rows);
            && DistinctUrls(r, t) && PairwiseUnlike(r, t) && WithinCap(r, t, cap) && Unranked(r) == Unranked(rows)
  {
    var r := Renumbered(rows);
    forall d ensures OfDomain(r, t, d) <= cap {
      RanksDoNotCount(r, rows, t, d);
    }
  }

  lemma UnrankedSubsequence(a: seq<Ranked>, b: seq<Ranked>)
    requires Subsequence(a, b)
    ensures Subsequence(Unranked(a), Unranked(b))
  {
    var at :| Picks(a, b, at);
    assert Picks(Unranked(a), Unranked(b), at);
  }

  /** Best first: of two rows the first has the higher score, or the same and the earlier candidate. Row `i`
      is candidate `at[i]`, with its score. */
  ghost predicate BestFirst(rows: seq<Ranked>, candidates: seq<Result>, scores: seq<real>, at: seq<nat>) {
    && |at| == |rows|
    && (forall i | 0 <= i < |rows| ::
          && at[i] < |candidates| && at[i] < |scores|
          && rows[i].result == candidates[at[i]] && rows[i].score == scores[at[i]])
    && (forall i, j | 0 <= i < j < |rows| ::
          rows[i].score > rows[j].score || (rows[i].score == rows[j].score && at[i] < at[j]))
  }

  ghost predicate RanksIncrease(rows: seq<Ranked>) {
    forall i, j | 0 <= i < j < |rows| :: rows[i].rank < rows[j].rank
  }

  lemma {:induction false} TiesKeepOrder(rows: seq<Ranked>, i: nat, j: nat)
    requires i < j < |rows| && rows[i].score == rows[j].score
    requires RanksIncrease(Class(rows, rows[i], ByScore))
    ensures rows[i].rank < rows[j].rank
  {
    var x, rest := rows[i], rows[1..];
    var whole, c := Class(rows, x, ByScore), Class(rest, x, ByScore);
    var n := if Same(x, rows[0], ByScore) then 1 else 0;
    assert whole == (if Same(x, rows[0], ByScore) then [rows[0]] else []) + c;
    if i == 0 {
      ClassMember(rest, x, ByScore);
      assert rest[j - 1] == rows[j] && Same(x, rows[j], ByScore) && rows[j] in c;
      var l :| 0 <= l < |c| && c[l] == rows[j];
      assert whole[0] == rows[0] && whole[l + 1] == rows[j];
      assert whole[0].rank < whole[l + 1].rank;
    } else {
      RanksBehind(whole, n);
      assert c == whole[n..];
      assert rest[i - 1] == x && rest[j - 1] == rows[j];
      TiesKeepOrder(rest, i - 1, j - 1);
    }
  }

  lemma {:induction false} ClassKeepsRanks(rows: seq<Ranked>, x: Ranked)
    requires RanksIncrease(rows)
    ensures RanksIncrease(Class(rows, x, ByScore))
  {
    if rows != [] {
      var rest := rows[1..];
      var c := Class(rest, x, ByScore);
      RanksBehind(rows, 1);
      ClassKeepsRanks(rest, x);
      ClassMember(rest, x, ByScore);
      assert Class(rows, x, ByScore) == (if Same(x, rows[0], ByScore) then [rows[0]] else []) + c;
      forall k | 0 <= k < |c| ensures rows[0].rank < c[k].rank {
        assert c[k] in rest;
        var l :| 0 <= l < |rest| && rest[l] == c[k];
        assert rows[l + 1] == c[k];
      }
    }
  }

  lemma RanksBehind(rows: seq<Ranked>, n: nat)
    requires n <= |rows| && RanksIncrease(rows)
    ensures RanksIncrease(rows[n..])
  {
  }

  /** Candidate `n` is among the rows. */
  predicate IsAmong(rows: seq<Ranked>, n: nat) { exists i | 0 <= i < |rows| :: rows[i].rank == n }

  /** Every candidate that was scored, best first. */
  lemma OrderIsBestFirst(candidates: seq<Result>, scores: seq<real>, maxCandidates: int)
    ensures var order := Order(candidates, scores, maxCandidates);
            var bounded := Take(candidates, maxCandidates);
            && |order| == Least(|bounded|, |scores|)
            && BestFirst(order, bounded, scores, seq(|order|, i requires 0 <= i < |order| => order[i].rank))
            && forall n: nat | n < |order| :: IsAmong(order, n)
  {
    var bounded := Take(candidates, maxCandidates);
    hide StableSort, Class, Take;
    var rows := Scored(bounded, scores);
    var order := StableSort(rows, ByScore);
    SortedMembers(rows);
    StableSortProperties(rows, ByScore);
    assert |order| == |multiset(order)| == |multiset(rows)| == |rows|;
    forall i | 0 <= i < |order|
      ensures order[i].rank < |rows| && order[i] == rows[order[i].rank]
    {
      assert order[i] in rows;
    }
    forall i, j | 0 <= i < j < |order|
      ensures order[i].score > order[j].score || (order[i].score == order[j].score && order[i].rank < order[j].rank)
    {
      assert ByScore(order[i], order[j]);
      if order[i].score == order[j].score {
        ClassKeepsRanks(rows, order[i]);
        assert Class(order, order[i], ByScore) == Class(rows, order[i], ByScore);
        TiesKeepOrder(order, i, j);
      }
    }
    forall n: nat | n < |order| ensures IsAmong(order, n) {
      assert rows[n] in order;
    }
  }

  lemma PickedBestFirst(a: seq<Ranked>, b: seq<Ranked>, candidates: seq<Result>, scores: seq<real>, bt: seq<nat>)
    requires Subsequence(a, b) && BestFirst(b, candidates, scores, bt)
    ensures exists at :: BestFirst(Renumbered(a), candidates, scores, at)
  {
    var pick :| Picks(a, b, pick);
    var at: seq<nat> := seq(|a|, i requires 0 <= i < |a| => bt[pick[i]]);
    assert BestFirst(Renumbered(a), candidates, scores, at);
  }

  /** Python's slice, of a length that is not negative. */
  lemma TakeIs<T>(s: seq<T>, n: nat)
    ensures Take(s, n) <= s && |Take(s, n)| == Least(n, |s|)
  {
  }

  /** Whatever the scores, the ranking lists candidates best first, ties as they came; it has at most `topK`
      rows, and `topK` if so many are left by the filters, numbered from 0, with distinct canonical URLs, at
      most `cap` rows of any domain, and no two near-duplicate texts. */
  lemma RerankProperties(candidates: seq<Result>, scores: seq<real>, t: Texts, topK: int, cap: int, maxCandidates: int)
    requires topK > 0
    ensures var order := Order(candidates, scores, maxCandidates);
            var r := Renumbered(Take(Filtered(order, t, cap), topK));
            && |r| == Least(topK, |Filtered(order, t, cap)|) && (forall i | 0 <= i < |r| :: r[i].rank == i)
            && Subsequence(Unranked(r), Unranked(order))
            && (exists at :: BestFirst(r, Take(candidates, maxCandidates), scores, at))
            && DistinctUrls(r, t) && PairwiseUnlike(r, t) && WithinCap(r, t, if cap < 1 then 0 else cap)
  {
    var order := Order(candidates, scores, maxCandidates);
    OrderIsBestFirst(candidates, scores, maxCandidates);
    hide BestFirst;
    var bt: seq<nat> := seq(|order|, i requires 0 <= i < |order| => order[i].rank);
    assert BestFirst(order, Take(candidates, maxCandidates), scores, bt);
    hide Subsequence, DistinctUrls, PairwiseUnlike, WithinCap, Filtered, Order, Unranked;
    var f := Filtered(order, t, cap);
    var final := Take(f, topK);
    FilteredProperties(order, t, cap);
    var n := if topK < |f| then topK else |f|;
    assert final == f[..n];
    PrefixSubsequence(f, n);
    SubsequenceTransitive(final, f, order);
    DistinctBelow(final, f, t);
    WithinBelow(final, f, t, if cap < 1 then 0 else cap);
    UnrankedSubsequence(final, order);
    PickedBestFirst(final, order, Take(candidates, maxCandidates), scores, bt);
    TakeIs(f, topK);
    RenumberedProperties(final, t, if cap < 1 then 0 else cap);
  }

  function Least(x: int, y: int): int { if x <= y then x else y }

  /** The cap gives every domain the smaller of the cap and what it has. */
  lemma {:induction false} CapGivesEachItsShare(rows: seq<Ranked>, t: Texts, cap: int, d: string)
    requires cap >= 1
    ensures OfDomain(Greedy(rows, UnderCap(t, cap)), t, d) == Least(cap, OfDomain(rows, t, d))
  {
    if rows == [] {
      EmptyGreedy(UnderCap(t, cap));
    } else {
      var n := |rows| - 1;
      var before := rows[..n];
      CapGivesEachItsShare(before, t, cap, d);
      assert rows == before + [rows[n]];
      GreedySnoc(before, rows[n], UnderCap(t, cap));
      var kept := Greedy(before, UnderCap(t, cap));
      assert kept + [] == kept;
      DomainSnoc(kept, rows[n], t, d);
      DomainSnoc(before, rows[n], t, d);
      hide OfDomain, Greedy;
    }
  }

  /** Row `i` is of domain `d`, and the last filter refuses it beside the rows kept before it. */
  ghost predicate RefusedAsNear(rows: seq<Ranked>, t: Texts, d: string, i: nat)
    requires i < |rows|
  {
    t.domain(rows[i].result.url) == d && !Unlike(t)(Greedy(rows[..i], Unlike(t)), rows[i])
  }

  lemma {:induction false} UnlikeKeepsAllIff(rows: seq<Ranked>, t: Texts, d: string)
    ensures var kept := OfDomain(Greedy(rows, Unlike(t)), t, d);
            && kept <= OfDomain(rows, t, d)
            && (kept == OfDomain(rows, t, d) <==> forall i | 0 <= i < |rows| :: !RefusedAsNear(rows, t, d, i))
  {
    hide OfDomain, Greedy, RefusedAsNear, Unlike;
    if rows == [] {
      EmptyGreedy(Unlike(t));
    } else {
      var n := |rows| - 1;
      var before := rows[..n];
      UnlikeKeepsAllIff(before, t, d);
      assert rows == before + [rows[n]];
      UnlikeStep(before, rows[n], t, d);
      forall i | 0 <= i < n ensures RefusedAsNear(before, t, d, i) <==> RefusedAsNear(rows, t, d, i) {
        RefusedInPrefix(rows, n, t, d, i);
      }
    }
  }

  lemma RefusedInPrefix(rows: seq<Ranked>, n: nat, t: Texts, d: string, i: nat)
    requires i < n <= |rows|
    ensures RefusedAsNear(rows[..n], t, d, i) <==> RefusedAsNear(rows, t, d, i)
  {
    hide Greedy, Unlike;
    assert rows[..n][..i] == rows[..i];
  }

  lemma UnlikeStep(before: seq<Ranked>, row: Ranked, t: Texts, d: string)
    ensures var rows := before + [row];
            var lost := RefusedAsNear(rows, t, d, |before|);
            && OfDomain(rows, t, d) - OfDomain(Greedy(rows, Unlike(t)), t, d)
               == OfDomain(before, t, d) - OfDomain(Greedy(before, Unlike(t)), t, d) + if lost then 1 else 0
  {
    hide Greedy, Unlike, OfDomain;
    assert (before + [row])[..|before|] == before;
    GreedySnoc(before, row, Unlike(t));
    var kept := Greedy(before, Unlike(t));
    assert kept + [] == kept;
    DomainSnoc(kept, row, t, d);
    DomainSnoc(before, row, t, d);
  }

  /** A domain keeps its share, the smaller of the cap and the number of its distinct URLs, iff no row of
      it that passed the cap is then dropped as a near-duplicate: a share spent on one is lost. */
  lemma DomainKeepsItsShareIff(rows: seq<Ranked>, t: Texts, cap: int, d: string)
    ensures var unique := Greedy(rows, FreshUrl(t));
            var capped := Capped(unique, t, cap);
            OfDomain(Filtered(rows, t, cap), t, d) == Least(if cap < 1 then 0 else cap, OfDomain(unique, t, d))
            <==> forall i | 0 <= i < |capped| :: !RefusedAsNear(capped, t, d, i)
  {
    hide FreshUrl, UnderCap, Unlike, Greedy, OfDomain, RefusedAsNear;
    var unique := Greedy(rows, FreshUrl(t));
    var capped := Capped(unique, t, cap);
    if cap >= 1 {
      CapGivesEachItsShare(unique, t, cap, d);
    } else {
      NoneOfDomain(t);
    }
    UnlikeKeepsAllIff(capped, t, d);
  }

  /** Search results carry canonical URLs. One with an IPv6 address that does not start with a colon
      makes the whole ranking raise, wherever it stands among the candidates that are scored. */
  lemma IPv6ResultsCannotBeRanked(lib: Canonical.Lib, url: string, i: nat, j: nat, t: Texts,
                                  candidates: seq<Result>, scores: seq<real>, maxCandidates: int, n: nat)
    requires lib.Valid() && Canonical.KeyOf(lib, url).Url?
    requires var h := Canonical.KeyOf(lib, url).key.host;
             i < j < |h| && h[i] == ':' && h[j] == ':' && h[0] != ':' && '[' !in h && ']' !in h
    requires forall u :: t.canon(u) == Canonical.CanonicalOf(lib, u)
    requires n < |candidates| && n < |scores| && n < maxCandidates
    requires Canonical.CanonicalOf(lib, url) == Some(candidates[n].url)
    ensures Unrankable(Order(candidates, scores, maxCandidates), t)
  {
    hide Canonical.KeyOf, Canonical.Print, Canonical.Lib.Valid, StableSort;
    Canonical.IPv6AnswersAreRejected(lib, url, i, j);
    hide Canonical.CanonicalOf;
    var rows := Scored(Take(candidates, maxCandidates), scores);
    SortedMembers(rows);
    assert rows[n] == Ranked(candidates[n], scores[n], n) && rows[n] in rows;
    assert t.canon(rows[n].result.url) == None;
  }

  lemma GreedySnoc<T>(rows: seq<T>, row: T, keep: (seq<T>, T) -> bool)
    ensures Greedy(rows + [row], keep)
            == Greedy(rows, keep) + if keep(Greedy(rows, keep), row) then [row] else []
  {
    assert (rows + [row])[..|rows|] == rows;
  }

  /** A filter that lets in `a`, and then `b` beside it or not. */
  lemma GreedyOfTwo<T>(a: T, b: T, keep: (seq<T>, T) -> bool)
    requires keep([], a)
    ensures Greedy([a], keep) == [a]
    ensures Greedy([a, b], keep) == [a] + if keep([a], b) then [b] else []
  {
    EmptyGreedy(keep);
    GreedySnoc([], a, keep);
    GreedySnoc([a], b, keep);
    assert [] + [a] == [a] && [a] + [b] == [a, b];
  }

  lemma DistinctPass(a: Ranked, b: Ranked, c: Ranked, t: Texts)
    requires DistinctUrls([a, b, c], t)
    ensures Greedy([a, b, c], FreshUrl(t)) == [a, b, c]
  {
    var rows := [a, b, c];
    assert rows[0] == a && rows[1] == b && rows[2] == c;
    GreedyOfTwo(a, b, FreshUrl(t));
    assert [a] + [b] == [a, b] && [a, b] + [c] == rows;
    GreedySnoc([a, b], c, FreshUrl(t));
  }

  lemma CapTwo(a: Ranked, b: Ranked, c: Ranked, t: Texts)
    requires t.domain(a.result.url) == t.domain(b.result.url) == t.domain(c.result.url)
    ensures Greedy([a, b, c], UnderCap(t, 2)) == [a, b]
  {
    var d := t.domain(a.result.url);
    assert [a, b][..1] == [a] && [a][..0] == [];
    assert OfDomain([], t, d) == 0 && OfDomain([a], t, d) == 1 && OfDomain([a, b], t, d) == 2;
    GreedyOfTwo(a, b, UnderCap(t, 2));
    assert [a] + [b] == [a, b] && [a, b] + [c] == [a, b, c];
    GreedySnoc([a, b], c, UnderCap(t, 2));
  }

  /** The cap is applied before the near-duplicates go, so a duplicate uses up its domain's share: of
      three pages of one domain, the second a copy of the first, only the first survives a cap of two,
      whatever the third is like. */
  lemma DuplicatesUseUpTheCap(a: Ranked, b: Ranked, c: Ranked, t: Texts)
    requires DistinctUrls([a, b, c], t)
    requires t.domain(a.result.url) == t.domain(b.result.url) == t.domain(c.result.url)
    requires t.tokens(TextOf(a)) == t.tokens(TextOf(b))
    ensures Filtered([a, b, c], t, 2) == [a]
  {
    hide TextOf, Near, DistinctUrls, Greedy;
    DistinctPass(a, b, c, t);
    CapTwo(a, b, c, t);
    NearSelf(t.tokens(TextOf(a)));
    GreedyOfTwo(a, b, Unlike(t));
  }

  lemma NearSelf(a: set<string>)
    ensures Near(a, a)
  {
    assert a * a == a && a + a == a;
  }
}
