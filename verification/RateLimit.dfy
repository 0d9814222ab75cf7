/** Per-domain crawl politeness: a lazily refilled token bucket for every domain. */
module RateLimit {
  import opened Wrappers
  import Canonical

  /** A monotonic clock's readings, in order. */
  ghost predicate Ascending(ts: seq<real>) {
    forall i, j | 0 <= i <= j < |ts| :: ts[i] <= ts[j]
  }

  datatype Config = Config(rate: real, burst: real) {
    predicate Valid() { rate >= 0.0 && burst >= 0.0 }
  }

  datatype Bucket = Bucket(tokens: real, updated: real)

  // ---------- specification ----------

  function Min(x: real, y: real): real { if x <= y then x else y }

  /** The tokens that flow in during `elapsed` seconds. */
  function Refill(c: Config, elapsed: real): real { elapsed * c.rate }

  /** What the bucket would hold at time `t` if it were refilled continuously. */
  function Level(c: Config, b: Bucket, t: real): real {
    Min(c.burst, b.tokens + Refill(c, t - b.updated))
  }

  predicate Grants(c: Config, b: Bucket, t: real) { Level(c, b, t) >= 1.0 }

  function Acquire(c: Config, b: Bucket, t: real): Bucket {
    Bucket(if Grants(c, b, t) then Level(c, b, t) - 1.0 else Level(c, b, t), t)
  }

  function After(c: Config, b: Bucket, ts: seq<real>): Bucket {
    if ts == [] then b else Acquire(c, After(c, b, ts[..|ts| - 1]), ts[|ts| - 1])
  }

  function Answers(c: Config, b: Bucket, ts: seq<real>): (g: seq<bool>)
    ensures |g| == |ts|
  {
    if ts == [] then []
    else
      var n := |ts| - 1;
      Answers(c, b, ts[..n]) + [Grants(c, After(c, b, ts[..n]), ts[n])]
  }

  function Count(g: seq<bool>): (n: nat) {
    if g == [] then 0 else Count(g[..|g| - 1]) + if g[|g| - 1] then 1 else 0
  }

  /** `host.split(".")` */
  function Labels(host: string): (ls: seq<string>)
    ensures ls != []
  {
    if host == "" then [""] else Read(host[0], Labels(host[1..]))
  }

  /** The labels with one more character in front: a dot opens a new one. */
  function Read(c: char, ls: seq<string>): (r: seq<string>)
    requires ls != []
    ensures r != []
  {
    if c == '.' then [""] + ls else [[c] + ls[0]] + ls[1..]
  }

  function LastTwo(ls: seq<string>): string
    requires |ls| >= 2
  {
    ls[|ls| - 2] + ("." + ls[|ls| - 1])
  }

  /** The last two labels of the host. */
  function RegistrableDomain(host: string): string {
    var ls := Labels(host);
    if |ls| <= 2 then host else LastTwo(ls)
  }

  /** The domain a URL is counted for; `None` if `urlsplit` raises. */
  function DomainOf(lib: Canonical.Lib, url: string): Option<string> {
    match Canonical.Split(lib, url)
    case None => None
    case Some(p) => Some(RegistrableDomain(lib.lower(Canonical.HostPort(p.netloc).0)))
  }

  // ---------- the code ----------

  class TokenBucket {
    const config: Config
    var tokens: real
    var updated: real

    function Value(): Bucket
      reads this
    {
      Bucket(tokens, updated)
    }

    constructor (config: Config, now: real)
      ensures this.config == config && Value() == Bucket(config.burst, now)
    {
      this.config, tokens, updated := config, config.burst, now;
    }

    method TryAcquire(now: real) returns (granted: bool)
      modifies this
      ensures granted == Grants(config, old(Value()), now)
      ensures Value() == Acquire(config, old(Value()), now)
    {
      hide Refill;
      tokens := Min(config.burst, tokens + Refill(config, now - updated));
      updated := now;
      if tokens >= 1.0 {
        tokens := tokens - 1.0;
        return true;
      }
      return false;
    }
  }

  /** The bucket of `domain`; one not seen before is full. */
  function BucketOf(c: Config, m: map<string, Bucket>, domain: string, now: real): Bucket {
    if domain in m then m[domain] else Bucket(c.burst, now)
  }

  class PerDomainRateLimiter {
    const config: Config
    var buckets: map<string, TokenBucket>

    /** Every domain has a bucket of its own. */
    ghost predicate Valid()
      reads this, buckets.Values
    {
      && (forall d | d in buckets :: buckets[d].config == config)
      && (forall d, e | d in buckets && e in buckets && d != e :: buckets[d] != buckets[e])
    }

    ghost function Value(): map<string, Bucket>
      reads this, buckets.Values
    {
      map d | d in buckets :: buckets[d].Value()
    }

    constructor (config: Config)
      ensures Valid() && this.config == config && Value() == map[]
    {
      this.config, buckets := config, map[];
    }

    method TryAcquire(lib: Canonical.Lib, url: string, now: real) returns (granted: Option<bool>)
      requires Valid()
      modifies this, buckets.Values
      ensures Valid()
      ensures match DomainOf(lib, url)
              case None => granted == None && Value() == old(Value())
              case Some(domain) =>
                var b := BucketOf(config, old(Value()), domain, now);
                && granted == Some(Grants(config, b, now))
                && Value() == old(Value())[domain := Acquire(config, b, now)]
    {
      hide Grants, Acquire, DomainOf;
      var found := DomainOf(lib, url);
      if found.None? {
        return None;
      }
      var domain := found.value;
      if domain !in buckets {
        var bucket := new TokenBucket(config, now);
        buckets := buckets[domain := bucket];
      }
      var ok := buckets[domain].TryAcquire(now);
      granted := Some(ok);
    }
  }

  // ---------- domains ----------

  lemma ReadConcat(c: char, ls: seq<string>, ms: seq<string>)
    requires ls != []
    ensures Read(c, ls + ms) == Read(c, ls) + ms
  {
    assert (ls + ms)[1..] == ls[1..] + ms && (ls + ms)[0] == ls[0];
  }

  lemma ReadHost(c: char, host: string)
    ensures Labels([c] + host) == Read(c, Labels(host))
  {
    hide Read;
    assert ([c] + host)[0] == c && ([c] + host)[1..] == host;
  }

  lemma {:induction false} LabelsConcat(a: string, b: string)
    ensures Labels(a + ("." + b)) == Labels(a) + Labels(b)
  {
    if a == "" {
      ReadHost('.', b);
      assert a + ("." + b) == ['.'] + b;
    } else {
      hide Read;
      LabelsConcat(a[1..], b);
      ReadHost(a[0], a[1..] + ("." + b));
      assert a + ("." + b) == [a[0]] + (a[1..] + ("." + b));
      ReadConcat(a[0], Labels(a[1..]), Labels(b));
    }
  }

  lemma {:induction false} FewLabels(host: string)
    ensures |Labels(host)| == 1 ==> host == Labels(host)[0]
    ensures |Labels(host)| == 2 ==> host == LastTwo(Labels(host))
  {
    if host != "" {
      var c, rest := host[0], host[1..];
      FewLabels(rest);
      ReadHost(c, rest);
      assert host == [c] + rest;
    }
  }

  lemma LastTwoOfConcat(ls: seq<string>, ms: seq<string>)
    requires |ms| >= 2
    ensures LastTwo(ls + ms) == LastTwo(ms)
  {
    var n, m := |ls|, |ms|;
    assert (ls + ms)[n + m - 2] == ms[m - 2] && (ls + ms)[n + m - 1] == ms[m - 1];
  }

  /** A host of two labels or more and everything below it share one bucket. */
  lemma SubdomainsShareABucket(sub: string, host: string)
    requires |Labels(host)| >= 2
    ensures RegistrableDomain(sub + ("." + host)) == RegistrableDomain(host)
  {
    hide Labels, LastTwo;
    LabelsConcat(sub, host);
    FewLabels(host);
    LastTwoOfConcat(Labels(sub), Labels(host));
  }

  // ---------- one bucket, any run ----------

  lemma RefillIs(c: Config, elapsed: real)
    ensures Refill(c, elapsed) == c.rate * elapsed
  {
  }

  lemma RefillSum(c: Config, a: real, b: real)
    ensures Refill(c, a + b) == Refill(c, a) + Refill(c, b)
  {
  }

  lemma RefillPositive(c: Config, a: real)
    requires c.Valid() && a >= 0.0
    ensures Refill(c, a) >= 0.0
  {
  }

  /** Refilling in two steps is refilling in one: stopping at `s` on the way changes no later level. */
  lemma RefillTwice(c: Config, b: Bucket, s: real, t: real)
    requires c.Valid() && s <= t
    ensures Level(c, Bucket(Level(c, b, s), s), t) == Level(c, b, t)
  {
    hide Refill;
    RefillSum(c, s - b.updated, t - s);
    assert (t - b.updated) == (s - b.updated) + (t - s);
    RefillPositive(c, t - s);
  }

  /** Two buckets that no one can tell apart from time `s` on. */
  ghost predicate Alike(c: Config, b1: Bucket, b2: Bucket, s: real) {
    forall t | s <= t :: Level(c, b1, t) == Level(c, b2, t)
  }

  lemma {:induction false} AlikeAnswers(c: Config, b1: Bucket, b2: Bucket, s: real, ts: seq<real>)
    requires c.Valid() && Alike(c, b1, b2, s) && Ascending(ts) && (ts != [] ==> s <= ts[0])
    ensures Answers(c, b1, ts) == Answers(c, b2, ts)
    ensures Alike(c, After(c, b1, ts), After(c, b2, ts), if ts == [] then s else ts[|ts| - 1])
  {
    if ts != [] {
      var n := |ts| - 1;
      AlikeAnswers(c, b1, b2, s, ts[..n]);
      var x1, x2 := After(c, b1, ts[..n]), After(c, b2, ts[..n]);
      assert Level(c, x1, ts[n]) == Level(c, x2, ts[n]);
      assert Acquire(c, x1, ts[n]) == Acquire(c, x2, ts[n]);
    }
  }

  lemma {:induction false} RunSplit(c: Config, b: Bucket, ts: seq<real>, us: seq<real>)
    ensures After(c, b, ts + us) == After(c, After(c, b, ts), us)
    ensures Answers(c, b, ts + us) == Answers(c, b, ts) + Answers(c, After(c, b, ts), us)
  {
    if us == [] {
      assert ts + us == ts;
    } else {
      RunSplit(c, b, ts, us[..|us| - 1]);
      assert (ts + us)[..|ts + us| - 1] == ts + us[..|us| - 1];
    }
  }

  /** A refused call leaves no trace: without it, every later call is answered the same. */
  lemma RefusedCallLeavesNoTrace(c: Config, b: Bucket, before: seq<real>, t: real, later: seq<real>)
    requires c.Valid() && Ascending(before + [t] + later)
    requires !Grants(c, After(c, b, before), t)
    ensures Answers(c, b, before + [t] + later)
            == Answers(c, b, before) + [false] + Answers(c, After(c, b, before), later)
    ensures Answers(c, b, before + later) == Answers(c, b, before) + Answers(c, After(c, b, before), later)
  {
    var x := After(c, b, before);
    RunSplit(c, b, before + [t], later);
    RunSplit(c, b, before, [t]);
    RunSplit(c, b, before, later);
    assert [t][..0] == [] && After(c, x, [t]) == Acquire(c, x, t) && Answers(c, x, [t]) == [false];
    forall u | t <= u ensures Level(c, Acquire(c, x, t), u) == Level(c, x, u) {
      RefillTwice(c, x, t, u);
    }
    assert later != [] ==> (before + [t] + later)[|before|] == t && (before + [t] + later)[|before| + 1] == later[0];
    assert forall i | 0 <= i < |later| :: (before + [t] + later)[|before| + 1 + i] == later[i];
    AlikeAnswers(c, Acquire(c, x, t), x, t, later);
  }

  /** The grants from call `i` on, and what they leave of the burst by time `t`. */
  function Allowance(c: Config, g: seq<bool>, ts: seq<real>, i: nat, t: real): real
    requires |g| == |ts| && i < |ts|
  {
    c.burst + Refill(c, t - ts[i]) - Count(g[i..]) as real
  }

  /** The level is the burst, or the least allowance left by any window of grants ending now. */
  ghost predicate LevelIsLeast(c: Config, g: seq<bool>, ts: seq<real>, t: real, level: real)
    requires |g| == |ts|
  {
    && level <= c.burst
    && (forall i | 0 <= i < |ts| && g[i] :: level <= Allowance(c, g, ts, i, t))
    && (level == c.burst || exists i | 0 <= i < |ts| && g[i] :: level == Allowance(c, g, ts, i, t))
  }

  lemma AllowanceStep(c: Config, g: seq<bool>, ts: seq<real>, i: nat, s: real, x: bool, t: real)
    requires |g| == |ts| && i < |ts|
    ensures Allowance(c, g + [x], ts + [s], i, t)
            == Allowance(c, g, ts, i, s) + Refill(c, t - s) - if x then 1.0 else 0.0
  {
    assert (g + [x])[i..] == g[i..] + [x];
    assert (g[i..] + [x])[..|g| - i] == g[i..];
    hide Refill;
    RefillSum(c, s - ts[i], t - s);
    assert (t - ts[i]) == (s - ts[i]) + (t - s);
  }

  lemma LeastStep(c: Config, g: seq<bool>, ts: seq<real>, s: real, level: real, x: bool, t: real)
    requires c.Valid() && |g| == |ts| && LevelIsLeast(c, g, ts, s, level) && s <= t
    ensures LevelIsLeast(c, g + [x], ts + [s], t, Min(c.burst, level - (if x then 1.0 else 0.0) + Refill(c, t - s)))
  {
    hide Refill;
    var g', ts' := g + [x], ts + [s];
    var drop := if x then 1.0 else 0.0;
    var next := Min(c.burst, level - drop + Refill(c, t - s));
    assert g'[|g|..] == [x] && [x][..0] == [];
    assert Count([x]) == if x then 1 else 0;
    assert Allowance(c, g', ts', |ts|, t) == c.burst + Refill(c, t - s) - Count([x]) as real;
    hide Count, Allowance;
    RefillPositive(c, t - s);
    forall i | 0 <= i < |ts'| && g'[i] ensures next <= Allowance(c, g', ts', i, t) {
      if i < |ts| {
        AllowanceStep(c, g, ts, i, s, x, t);
      }
    }
    if next != c.burst && level == c.burst {
      assert next == Allowance(c, g', ts', |ts|, t);
    } else if next != c.burst {
      var i :| 0 <= i < |ts| && g[i] && level == Allowance(c, g, ts, i, s);
      AllowanceStep(c, g, ts, i, s, x, t);
      assert g'[i] && next == Allowance(c, g', ts', i, t);
    }
  }

  lemma FullLevel(c: Config, b: Bucket, t: real)
    requires c.Valid() && b.tokens == c.burst && b.updated <= t
    ensures LevelIsLeast(c, [], [], t, Level(c, b, t))
  {
    RefillPositive(c, t - b.updated);
  }

  lemma {:induction false} LevelClosedForm(c: Config, b: Bucket, ts: seq<real>, t: real)
    requires c.Valid() && b.tokens == c.burst && Ascending(ts + [t]) && b.updated <= (ts + [t])[0]
    ensures LevelIsLeast(c, Answers(c, b, ts), ts, t, Level(c, After(c, b, ts), t))
  {
    hide Refill, LevelIsLeast;
    if ts == [] {
      FullLevel(c, b, t);
    } else {
      var n := |ts| - 1;
      var before, s := ts[..n], ts[n];
      assert before + [s] == ts && (ts + [t])[|ts|] == t && (ts + [t])[n] == s;
      assert forall i | 0 <= i < |before + [s]| :: (before + [s])[i] == (ts + [t])[i];
      LevelClosedForm(c, b, before, s);
      var x := After(c, b, before);
      LeastStep(c, Answers(c, b, before), before, s, Level(c, x, s), Grants(c, x, s), t);
    }
  }

  /** No window of the grants so far, with one more at time `t`, exceeds the burst and what flowed in. */
  ghost predicate WindowsHaveRoom(c: Config, g: seq<bool>, ts: seq<real>, t: real)
    requires |g| == |ts|
  {
    forall i | 0 <= i < |ts| && g[i] :: Count(g[i..]) as real + 1.0 <= c.burst + c.rate * (t - ts[i])
  }

  lemma AllowanceIff(c: Config, g: seq<bool>, ts: seq<real>, i: nat, t: real)
    requires |g| == |ts| && i < |ts|
    ensures Allowance(c, g, ts, i, t) >= 1.0 <==> Count(g[i..]) as real + 1.0 <= c.burst + c.rate * (t - ts[i])
  {
    hide Count;
  }

  lemma WindowsIff(c: Config, g: seq<bool>, ts: seq<real>, t: real)
    requires |g| == |ts|
    ensures WindowsHaveRoom(c, g, ts, t) <==> forall i | 0 <= i < |ts| && g[i] :: Allowance(c, g, ts, i, t) >= 1.0
  {
    forall i | 0 <= i < |ts| && g[i]
      ensures Allowance(c, g, ts, i, t) >= 1.0 <==> Count(g[i..]) as real + 1.0 <= c.burst + c.rate * (t - ts[i])
    {
      AllowanceIff(c, g, ts, i, t);
    }
    hide Allowance, Count;
  }

  /** The limiter is as permissive as its bound allows. In any run, a call at time `t` is granted
      iff the burst is at least one token and no window of earlier grants, with this one added, would
      exceed burst + rate * length. */
  lemma GrantedIffEveryWindowHasRoom(c: Config, b: Bucket, ts: seq<real>, t: real)
    requires c.Valid() && b.tokens == c.burst && Ascending(ts + [t]) && b.updated <= (ts + [t])[0]
    ensures Grants(c, After(c, b, ts), t) <==> c.burst >= 1.0 && WindowsHaveRoom(c, Answers(c, b, ts), ts, t)
  {
    hide Refill, Level, Count, Answers, Allowance, WindowsHaveRoom;
    LevelClosedForm(c, b, ts, t);
    WindowsIff(c, Answers(c, b, ts), ts, t);
  }

  predicate InRange(c: Config, b: Bucket) { 0.0 <= b.tokens <= c.burst }

  lemma {:induction false} StaysInRange(c: Config, b: Bucket, ts: seq<real>)
    requires c.Valid() && InRange(c, b) && Ascending(ts) && (ts != [] ==> b.updated <= ts[0])
    ensures InRange(c, After(c, b, ts)) && After(c, b, ts).updated == if ts == [] then b.updated else ts[|ts| - 1]
  {
    if ts != [] {
      var n := |ts| - 1;
      StaysInRange(c, b, ts[..n]);
      var x := After(c, b, ts[..n]);
      hide Refill;
      RefillPositive(c, ts[n] - x.updated);
    }
  }

  lemma {:induction false} Spent(c: Config, b: Bucket, ts: seq<real>)
    requires c.Valid() && InRange(c, b) && ts != [] && Ascending(ts) && b.updated <= ts[0]
    ensures Count(Answers(c, b, ts)) as real + After(c, b, ts).tokens <= c.burst + Refill(c, ts[|ts| - 1] - ts[0])
  {
    var n := |ts| - 1;
    if n == 0 {
      assert ts[..0] == [];
      assert Answers(c, b, []) == [] && Count([]) == 0 && After(c, b, []) == b;
      RefillPositive(c, 0.0);
      assert Level(c, b, ts[0]) <= c.burst;
    } else {
      hide Refill, Grants, Acquire, Count, Answers;
      var x := After(c, b, ts[..n]);
      Spent(c, b, ts[..n]);
      StaysInRange(c, b, ts[..n]);
      RefillSum(c, ts[n - 1] - ts[0], ts[n] - ts[n - 1]);
      assert ts[n] - ts[0] == (ts[n - 1] - ts[0]) + (ts[n] - ts[n - 1]);
    }
  }

  lemma AnswersBetween(c: Config, b: Bucket, ts: seq<real>, i: nat, j: nat)
    requires i <= j <= |ts|
    ensures Answers(c, b, ts)[i..j] == Answers(c, After(c, b, ts[..i]), ts[i..j])
  {
    hide Answers, After;
    var head, mid, tail := ts[..i], ts[i..j], ts[j..];
    assert ts == (head + mid) + tail;
    RunSplit(c, b, head + mid, tail);
    RunSplit(c, b, head, mid);
  }

  lemma WindowRefill(c: Config, b: Bucket, ts: seq<real>, i: nat, j: nat)
    requires c.Valid() && InRange(c, b) && Ascending(ts) && (ts != [] ==> b.updated <= ts[0])
    requires i <= j < |ts|
    ensures Count(Answers(c, b, ts)[i..j + 1]) as real <= c.burst + Refill(c, ts[j] - ts[i])
  {
    hide Refill, Count, Answers, After;
    AnswersBetween(c, b, ts, i, j + 1);
    var x, mid := After(c, b, ts[..i]), ts[i..j + 1];
    StaysInRange(c, b, ts[..i]);
    Spent(c, x, mid);
    StaysInRange(c, x, mid);
  }

  /** In any run, the grants among the calls `i` to `j` are at most burst + rate * elapsed time. */
  lemma WindowBound(c: Config, b: Bucket, ts: seq<real>, i: nat, j: nat)
    requires c.Valid() && InRange(c, b) && Ascending(ts) && (ts != [] ==> b.updated <= ts[0])
    requires i <= j < |ts|
    ensures Count(Answers(c, b, ts)[i..j + 1]) as real <= c.burst + c.rate * (ts[j] - ts[i])
  {
    hide Refill, Count, Answers, After, Ascending, InRange;
    WindowRefill(c, b, ts, i, j);
    RefillIs(c, ts[j] - ts[i]);
  }

  // ---------- many domains ----------

  datatype Call = Call(domain: string, now: real)

  function Buckets(c: Config, calls: seq<Call>): map<string, Bucket> {
    if calls == [] then map[]
    else
      var m, k := Buckets(c, calls[..|calls| - 1]), calls[|calls| - 1];
      m[k.domain := Acquire(c, BucketOf(c, m, k.domain, k.now), k.now)]
  }

  /** The limiter's answers to the calls for domain `d`. */
  function AnswersFor(c: Config, calls: seq<Call>, d: string): seq<bool> {
    if calls == [] then []
    else
      var before, k := calls[..|calls| - 1], calls[|calls| - 1];
      AnswersFor(c, before, d)
      + if k.domain == d then [Grants(c, BucketOf(c, Buckets(c, before), d, k.now), k.now)] else []
  }

  function TimesOf(calls: seq<Call>, d: string): seq<real> {
    if calls == [] then []
    else
      TimesOf(calls[..|calls| - 1], d)
      + if calls[|calls| - 1].domain == d then [calls[|calls| - 1].now] else []
  }

  /** Other domains' calls do not matter: each domain is answered as a bucket of its own, full at its
      first call, would answer its own calls alone. */
  lemma {:induction false} DomainsAreIndependent(c: Config, calls: seq<Call>, d: string)
    ensures var ts := TimesOf(calls, d);
            && (ts == [] <==> d !in Buckets(c, calls))
            && (ts != [] ==> Buckets(c, calls)[d] == After(c, Bucket(c.burst, ts[0]), ts))
            && AnswersFor(c, calls, d) == if ts == [] then [] else Answers(c, Bucket(c.burst, ts[0]), ts)
  {
    hide Grants, Acquire;
    if calls != [] {
      var before, k := calls[..|calls| - 1], calls[|calls| - 1];
      DomainsAreIndependent(c, before, d);
      if k.domain == d {
        var us := TimesOf(before, d);
        var ts := us + [k.now];
        assert ts[..|us|] == us;
        assert TimesOf(calls, d) == ts;
        var b := Bucket(c.burst, ts[0]);
        assert After(c, b, []) == b && Answers(c, b, []) == [];
        assert BucketOf(c, Buckets(c, before), d, k.now) == After(c, b, us);
      } else {
        assert TimesOf(calls, d) == TimesOf(before, d);
      }
    }
  }
}
