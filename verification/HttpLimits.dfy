/** The HTTP surface's limits: a fixed-window request counter for each token and client address, and
    the concurrency slots the two search handlers acquire and release. */
module HttpLimits {

  const WINDOW_S := 60.0

  /** Reading a `defaultdict(int)`. */
  function Get(m: map<string, nat>, k: string): nat { if k in m then m[k] else 0 }

  // ---------- request windows: specification ----------

  datatype Counts = Counts(tokenRequests: map<string, nat>, ipRequests: map<string, nat>,
                           tokenResetAt: real, ipResetAt: real)

  datatype Call = Call(now: real, token: string, ip: string)

  datatype Limits = Limits(token: int, ip: int)

  /** The counters after the windows that are over have been cleared. */
  function Cleared(s: Counts, now: real): Counts {
    var t := if now - s.tokenResetAt >= WINDOW_S then s.(tokenRequests := map[], tokenResetAt := now) else s;
    if now - t.ipResetAt >= WINDOW_S then t.(ipRequests := map[], ipResetAt := now) else t
  }

  predicate Allowed(s: Counts, c: Call, limits: Limits) {
    var t := Cleared(s, c.now);
    Get(t.tokenRequests, c.token) < limits.token && Get(t.ipRequests, c.ip) < limits.ip
  }

  /** Looking a missing key up also inserts it, with 0. */
  function Next(s: Counts, c: Call, limits: Limits): Counts {
    var t := Cleared(s, c.now);
    var n, m := Get(t.tokenRequests, c.token), Get(t.ipRequests, c.ip);
    if n >= limits.token then t.(tokenRequests := t.tokenRequests[c.token := n])
    else if m >= limits.ip then
      t.(tokenRequests := t.tokenRequests[c.token := n], ipRequests := t.ipRequests[c.ip := m])
    else
      t.(tokenRequests := t.tokenRequests[c.token := n + 1], ipRequests := t.ipRequests[c.ip := m + 1])
  }

  // ---------- the code ----------

  class RateLimiter {
    var tokenRequests: map<string, nat>
    var ipRequests: map<string, nat>
    var tokenInflight: map<string, nat>
    var tokenResetAt: real
    var ipResetAt: real

    ghost function Value(): Counts
      reads this
    {
      Counts(tokenRequests, ipRequests, tokenResetAt, ipResetAt)
    }

    constructor (tokenAt: real, ipAt: real)
      ensures Value() == Counts(map[], map[], tokenAt, ipAt) && tokenInflight == map[]
    {
      tokenRequests, ipRequests, tokenInflight := map[], map[], map[];
      tokenResetAt, ipResetAt := tokenAt, ipAt;
    }

    /** The first half of `allow`. */
    method ClearExpired(now: real)
      modifies this
      ensures Value() == Cleared(old(Value()), now) && tokenInflight == old(tokenInflight)
    {
      if now - tokenResetAt >= WINDOW_S {
        tokenRequests := map[];
        tokenResetAt := now;
      }
      if now - ipResetAt >= WINDOW_S {
        ipRequests := map[];
        ipResetAt := now;
      }
    }

    method Allow(c: Call, limits: Limits) returns (allowed: bool)
      modifies this
      ensures allowed == Allowed(old(Value()), c, limits)
      ensures Value() == Next(old(Value()), c, limits) && tokenInflight == old(tokenInflight)
    {
      hide Cleared, Get;
      ClearExpired(c.now);
      tokenRequests := tokenRequests[c.token := Get(tokenRequests, c.token)];
      if tokenRequests[c.token] >= limits.token {
        return false;
      }
      ipRequests := ipRequests[c.ip := Get(ipRequests, c.ip)];
      if ipRequests[c.ip] >= limits.ip {
        return false;
      }
      tokenRequests := tokenRequests[c.token := tokenRequests[c.token] + 1];
      ipRequests := ipRequests[c.ip := ipRequests[c.ip] + 1];
      return true;
    }

    method AcquireConcurrency(token: string, limit: int) returns (acquired: bool)
      modifies this
      ensures acquired == (Get(old(tokenInflight), token) < limit)
      ensures tokenInflight == Acquired(old(tokenInflight), token, limit) && Value() == old(Value())
    {
      tokenInflight := tokenInflight[token := Get(tokenInflight, token)];
      if tokenInflight[token] >= limit {
        return false;
      }
      tokenInflight := tokenInflight[token := tokenInflight[token] + 1];
      return true;
    }

    method ReleaseConcurrency(token: string)
      modifies this
      ensures tokenInflight == Released(old(tokenInflight), token) && Value() == old(Value())
    {
      var current := Get(tokenInflight, token);
      tokenInflight := tokenInflight[token := current];
      if current <= 1 {
        tokenInflight := tokenInflight - {token};
        return;
      }
      tokenInflight := tokenInflight[token := current - 1];
    }
  }

  // ---------- request windows: any run ----------

  function After(s: Counts, calls: seq<Call>, limits: Limits): Counts {
    if calls == [] then s
    else Next(After(s, calls[..|calls| - 1], limits), calls[|calls| - 1], limits)
  }

  /** Which of the calls are allowed. */
  function Answers(s: Counts, calls: seq<Call>, limits: Limits): (g: seq<bool>)
    ensures |g| == |calls|
  {
    if calls == [] then []
    else
      var n := |calls| - 1;
      Answers(s, calls[..n], limits) + [Allowed(After(s, calls[..n], limits), calls[n], limits)]
  }

  /** One key's view of a counter table. */
  datatype Lane = Lane(count: nat, resetAt: real)

  predicate LaneStep(x: Lane, y: Lane, now: real, hit: bool, limit: int) {
    var start := if now - x.resetAt >= WINDOW_S then Lane(0, now) else x;
    && y == start.(count := start.count + if hit then 1 else 0)
    && (hit ==> start.count < limit)
  }

  function TokenLane(s: Counts, k: string): Lane { Lane(Get(s.tokenRequests, k), s.tokenResetAt) }

  function IpLane(s: Counts, k: string): Lane { Lane(Get(s.ipRequests, k), s.ipResetAt) }

  lemma LanesStep(s: Counts, c: Call, limits: Limits, k: string)
    ensures LaneStep(TokenLane(s, k), TokenLane(Next(s, c, limits), k), c.now,
                     Allowed(s, c, limits) && c.token == k, limits.token)
    ensures LaneStep(IpLane(s, k), IpLane(Next(s, c, limits), k), c.now,
                     Allowed(s, c, limits) && c.ip == k, limits.ip)
  {
  }

  function Hits(hits: seq<bool>): nat {
    if hits == [] then 0 else (if hits[0] then 1 else 0) + Hits(hits[1..])
  }

  ghost predicate LaneRun(lanes: seq<Lane>, nows: seq<real>, hits: seq<bool>, limit: int) {
    && |lanes| == |nows| + 1 && |hits| == |nows|
    && (forall k | 0 <= k < |nows| :: LaneStep(lanes[k], lanes[k + 1], nows[k], hits[k], limit))
    && (forall k, l | 0 <= k <= l < |nows| :: nows[k] <= nows[l])
  }

  function Room(limit: int, count: nat): nat { if limit - count >= 0 then limit - count else 0 }

  lemma RoomShrinks(limit: int, count: nat)
    ensures Room(limit, count) <= Room(limit, 0)
  {
  }

  /** Before the window ends, no more is admitted than it has room for. */
  lemma {:induction false} InsideOneWindow(lanes: seq<Lane>, nows: seq<real>, hits: seq<bool>, limit: int)
    requires LaneRun(lanes, nows, hits, limit)
    requires forall k | 0 <= k < |nows| :: nows[k] - lanes[0].resetAt < WINDOW_S
    ensures Hits(hits) <= Room(limit, lanes[0].count)
  {
    if nows != [] {
      assert LaneStep(lanes[0], lanes[1], nows[0], hits[0], limit);
      InsideOneWindow(lanes[1..], nows[1..], hits[1..], limit);
    }
  }

  /** Within any 60 seconds there is at most one reset: what the old window had room for, and one
      full window more. */
  lemma {:induction false} AcrossOneReset(lanes: seq<Lane>, nows: seq<real>, hits: seq<bool>, limit: int, from: real)
    requires LaneRun(lanes, nows, hits, limit)
    requires forall k | 0 <= k < |nows| :: from <= nows[k] < from + WINDOW_S
    ensures Hits(hits) <= Room(limit, lanes[0].count) + Room(limit, 0)
  {
    if nows != [] {
      assert LaneStep(lanes[0], lanes[1], nows[0], hits[0], limit);
      if nows[0] - lanes[0].resetAt >= WINDOW_S {
        InsideOneWindow(lanes[1..], nows[1..], hits[1..], limit);
      } else {
        AcrossOneReset(lanes[1..], nows[1..], hits[1..], limit, from);
      }
    }
  }

  ghost predicate Ascending(calls: seq<Call>) {
    forall k, l | 0 <= k <= l < |calls| :: calls[k].now <= calls[l].now
  }

  /** Which calls are allowed and made with token `k`, or from address `k`. */
  function TokenHits(s: Counts, calls: seq<Call>, limits: Limits, k: string): seq<bool> {
    seq(|calls|, i requires 0 <= i < |calls| => Answers(s, calls, limits)[i] && calls[i].token == k)
  }

  function IpHits(s: Counts, calls: seq<Call>, limits: Limits, k: string): seq<bool> {
    seq(|calls|, i requires 0 <= i < |calls| => Answers(s, calls, limits)[i] && calls[i].ip == k)
  }

  lemma {:induction false} AnswerAt(s: Counts, calls: seq<Call>, limits: Limits, i: nat)
    requires i < |calls|
    ensures Answers(s, calls, limits)[i] == Allowed(After(s, calls[..i], limits), calls[i], limits)
    ensures After(s, calls[..i + 1], limits) == Next(After(s, calls[..i], limits), calls[i], limits)
  {
    hide Allowed, Next;
    var n := |calls| - 1;
    assert calls[..i + 1][..i] == calls[..i];
    if i < n {
      AnswerAt(s, calls[..n], limits, i);
      assert calls[..n][..i] == calls[..i];
    }
  }

  /** In any run with a monotone clock and constant limits, the calls of any half-open 60 seconds
      include at most twice the limit of allowed ones per token, and per address. */
  lemma AtMostTwiceTheLimit(s: Counts, calls: seq<Call>, limits: Limits, i: nat, j: nat, from: real, k: string)
    requires Ascending(calls) && i <= j <= |calls|
    requires forall l | i <= l < j :: from <= calls[l].now < from + WINDOW_S
    ensures Hits(TokenHits(s, calls, limits, k)[i..j]) <= 2 * Room(limits.token, 0)
    ensures Hits(IpHits(s, calls, limits, k)[i..j]) <= 2 * Room(limits.ip, 0)
  {
    hide Allowed, Next, After, Answers, Hits, LaneStep;
    var nows := seq(j - i, l requires 0 <= l < j - i => calls[i + l].now);
    var tokens := seq(j - i + 1, l requires 0 <= l <= j - i => TokenLane(After(s, calls[..i + l], limits), k));
    var ips := seq(j - i + 1, l requires 0 <= l <= j - i => IpLane(After(s, calls[..i + l], limits), k));
    var tokenHits, ipHits := TokenHits(s, calls, limits, k)[i..j], IpHits(s, calls, limits, k)[i..j];
    forall l | 0 <= l < j - i
      ensures LaneStep(tokens[l], tokens[l + 1], nows[l], tokenHits[l], limits.token)
      ensures LaneStep(ips[l], ips[l + 1], nows[l], ipHits[l], limits.ip)
    {
      AnswerAt(s, calls, limits, i + l);
      LanesStep(After(s, calls[..i + l], limits), calls[i + l], limits, k);
    }
    AcrossOneReset(tokens, nows, tokenHits, limits.token, from);
    AcrossOneReset(ips, nows, ipHits, limits.ip, from);
    RoomShrinks(limits.token, tokens[0].count);
    RoomShrinks(limits.ip, ips[0].count);
  }

  // ---------- what is in the window ----------

  /** The hits from time `from` on. */
  function HitsSince(nows: seq<real>, hits: seq<bool>, from: real): nat
    requires |nows| == |hits|
  {
    if nows == [] then 0
    else
      var n := |nows| - 1;
      HitsSince(nows[..n], hits[..n], from) + if hits[n] && nows[n] >= from then 1 else 0
  }

  lemma {:induction false} NoHitsYet(nows: seq<real>, hits: seq<bool>, from: real)
    requires |nows| == |hits| && forall k | 0 <= k < |nows| :: nows[k] < from
    ensures HitsSince(nows, hits, from) == 0
  {
    if nows != [] {
      NoHitsYet(nows[..|nows| - 1], hits[..|nows| - 1], from);
    }
  }

  /** A key's count is its hits since its window started, less than 60 seconds ago. */
  lemma {:induction false} CountIsHitsSince(lanes: seq<Lane>, nows: seq<real>, hits: seq<bool>, limit: int)
    requires LaneRun(lanes, nows, hits, limit) && lanes[0].count == 0
    requires nows != [] ==> lanes[0].resetAt <= nows[0]
    ensures var n := |nows|;
            && lanes[n].count == HitsSince(nows, hits, lanes[n].resetAt)
            && (n > 0 ==> lanes[n].resetAt <= nows[n - 1] < lanes[n].resetAt + WINDOW_S)
  {
    if nows != [] {
      var m := |nows| - 1;
      CountIsHitsSince(lanes[..m + 1], nows[..m], hits[..m], limit);
      assert LaneStep(lanes[m], lanes[m + 1], nows[m], hits[m], limit);
      if nows[m] - lanes[m].resetAt >= WINDOW_S {
        forall k | 0 <= k < m ensures nows[k] < nows[m] {
          assert nows[k] <= nows[m - 1];
        }
        NoHitsYet(nows[..m], hits[..m], nows[m]);
      }
    }
  }

  function Nows(calls: seq<Call>): seq<real> { seq(|calls|, i requires 0 <= i < |calls| => calls[i].now) }

  /** The hits in a window that started at `from`, if it is not over. */
  function Used(nows: seq<real>, hits: seq<bool>, from: real, now: real): nat
    requires |nows| == |hits|
  {
    if now - from >= WINDOW_S then 0 else HitsSince(nows, hits, from)
  }

  lemma TokenCount(s: Counts, calls: seq<Call>, limits: Limits, k: string)
    requires s.tokenRequests == map[] && Ascending(calls) && (calls != [] ==> s.tokenResetAt <= calls[0].now)
    ensures Get(After(s, calls, limits).tokenRequests, k)
            == HitsSince(Nows(calls), TokenHits(s, calls, limits, k), After(s, calls, limits).tokenResetAt)
  {
    hide Allowed, Next, After, Answers, LaneStep, HitsSince;
    var n := |calls|;
    var lanes := seq(n + 1, l requires 0 <= l <= n => TokenLane(After(s, calls[..l], limits), k));
    var hits := TokenHits(s, calls, limits, k);
    forall l | 0 <= l < n ensures LaneStep(lanes[l], lanes[l + 1], calls[l].now, hits[l], limits.token) {
      AnswerAt(s, calls, limits, l);
      LanesStep(After(s, calls[..l], limits), calls[l], limits, k);
    }
    NoCalls(s, limits);
    assert calls[..0] == [] && calls[..n] == calls;
    CountIsHitsSince(lanes, Nows(calls), hits, limits.token);
  }

  lemma IpCount(s: Counts, calls: seq<Call>, limits: Limits, k: string)
    requires s.ipRequests == map[] && Ascending(calls) && (calls != [] ==> s.ipResetAt <= calls[0].now)
    ensures Get(After(s, calls, limits).ipRequests, k)
            == HitsSince(Nows(calls), IpHits(s, calls, limits, k), After(s, calls, limits).ipResetAt)
  {
    hide Allowed, Next, After, Answers, LaneStep, HitsSince;
    var n := |calls|;
    var lanes := seq(n + 1, l requires 0 <= l <= n => IpLane(After(s, calls[..l], limits), k));
    var hits := IpHits(s, calls, limits, k);
    forall l | 0 <= l < n ensures LaneStep(lanes[l], lanes[l + 1], calls[l].now, hits[l], limits.ip) {
      AnswerAt(s, calls, limits, l);
      LanesStep(After(s, calls[..l], limits), calls[l], limits, k);
    }
    NoCalls(s, limits);
    assert calls[..0] == [] && calls[..n] == calls;
    CountIsHitsSince(lanes, Nows(calls), hits, limits.ip);
  }

  lemma NoCalls(s: Counts, limits: Limits)
    ensures After(s, [], limits) == s
  {
  }

  /** In any run of a new limiter, a call is allowed iff its token's allowed calls in the token window are fewer
      than the limit, and its address's in the address window: refused calls do not count. */
  lemma AllowedIffWindowsHaveRoom(start: real, calls: seq<Call>, c: Call, limits: Limits)
    requires Ascending(calls) && (calls != [] ==> start <= calls[0].now)
    ensures var s := Counts(map[], map[], start, start);
            var t := After(s, calls, limits);
            Allowed(t, c, limits)
            <==> && Used(Nows(calls), TokenHits(s, calls, limits, c.token), t.tokenResetAt, c.now) < limits.token
                 && Used(Nows(calls), IpHits(s, calls, limits, c.ip), t.ipResetAt, c.now) < limits.ip
  {
    hide After, Answers, HitsSince;
    var s := Counts(map[], map[], start, start);
    TokenCount(s, calls, limits, c.token);
    IpCount(s, calls, limits, c.ip);
  }

  // ---------- the bound is tight ----------

  function Burst(n: nat, now: real, token: string, ip: string): seq<Call> {
    seq(n, _ => Call(now, token, ip))
  }

  lemma {:induction false} BurstAllowed(s: Counts, n: nat, now: real, token: string, ip: string, limits: Limits)
    requires now - s.tokenResetAt < WINDOW_S && now - s.ipResetAt < WINDOW_S
    requires Get(s.tokenRequests, token) + n <= limits.token && Get(s.ipRequests, ip) + n <= limits.ip
    ensures forall i | 0 <= i < n :: Answers(s, Burst(n, now, token, ip), limits)[i]
    ensures var t := After(s, Burst(n, now, token, ip), limits);
            && t.tokenResetAt == s.tokenResetAt && t.ipResetAt == s.ipResetAt
            && Get(t.tokenRequests, token) == Get(s.tokenRequests, token) + n
            && Get(t.ipRequests, ip) == Get(s.ipRequests, ip) + n
  {
    if n > 0 {
      BurstAllowed(s, n - 1, now, token, ip, limits);
      assert Burst(n, now, token, ip)[..n - 1] == Burst(n - 1, now, token, ip);
    }
  }

  lemma {:induction false} AnswersConcat(s: Counts, xs: seq<Call>, ys: seq<Call>, limits: Limits)
    ensures After(s, xs + ys, limits) == After(After(s, xs, limits), ys, limits)
    ensures Answers(s, xs + ys, limits) == Answers(s, xs, limits) + Answers(After(s, xs, limits), ys, limits)
  {
    hide Allowed, Next;
    if ys == [] {
      assert xs + ys == xs;
    } else {
      AnswersConcat(s, xs, ys[..|ys| - 1], limits);
      assert (xs + ys)[..|xs + ys| - 1] == xs + ys[..|ys| - 1];
    }
  }

  lemma FirstOfWindow(s: Counts, c: Call, limits: Limits)
    requires c.now - s.tokenResetAt >= WINDOW_S && c.now - s.ipResetAt >= WINDOW_S
    requires limits.token >= 1 && limits.ip >= 1
    ensures Answers(s, [c], limits) == [true]
    ensures After(s, [c], limits) == Counts(map[c.token := 1], map[c.ip := 1], c.now, c.now)
  {
    assert [c][..0] == [] && After(s, [], limits) == s && Answers(s, [], limits) == [];
  }

  /** The bound is attained: for every limit, a full window just before a reset and a full one at the
      reset go through within one second. */
  lemma TwiceTheLimitIsReached(n: nat, token: string, ip: string)
    requires n >= 1
    ensures var calls := Burst(n, 59.0, token, ip) + Burst(n, 60.0, token, ip);
            forall i | 0 <= i < 2 * n :: Answers(Counts(map[], map[], 0.0, 0.0), calls, Limits(n, n))[i]
  {
    hide Allowed, Next, After, Answers;
    var s, limits := Counts(map[], map[], 0.0, 0.0), Limits(n, n);
    var xs, ys := Burst(n, 59.0, token, ip), Burst(n, 60.0, token, ip);
    BurstAllowed(s, n, 59.0, token, ip, limits);
    var t := After(s, xs, limits);
    AnswersConcat(s, xs, ys, limits);
    var first, rest := [Call(60.0, token, ip)], Burst(n - 1, 60.0, token, ip);
    assert ys == first + rest;
    AnswersConcat(t, first, rest, limits);
    FirstOfWindow(t, Call(60.0, token, ip), limits);
    BurstAllowed(After(t, first, limits), n - 1, 60.0, token, ip, limits);
  }

  // ---------- concurrency slots ----------

  function Acquired(m: map<string, nat>, token: string, limit: int): map<string, nat> {
    if Get(m, token) >= limit then m[token := Get(m, token)] else m[token := Get(m, token) + 1]
  }

  function Released(m: map<string, nat>, token: string): map<string, nat> {
    if Get(m, token) <= 1 then m - {token} else m[token := Get(m, token) - 1]
  }

  /** The `/v1/search` handler, and the `/v1/search/stream` one. */
  datatype Kind = Plain | Stream

  /** Where a request stands. `Dropped` is a stream whose generator was created but never started. */
  datatype Phase = Arrived | Refused | Working | Streaming | Dropped | Done

  datatype Request = Request(token: string, kind: Kind, phase: Phase)

  datatype Slots = Slots(inflight: map<string, nat>, requests: seq<Request>)

  datatype Action =
    | Arrive(token: string, kind: Kind)
    | Acquire(i: nat)     // the limiter is asked for a slot
    | Finish(i: nat)      // plain: `finally`, however the body ended; stream: the payload is rejected
    | Start(i: nat)       // stream: the generator is returned and first advanced
    | Close(i: nat)       // stream: the generator's `finally`
    | Drop(i: nat)        // stream: the generator is never started, so its `finally` never runs

  function At(s: Slots, i: nat, phase: Phase): Slots
    requires i < |s.requests|
  {
    s.(requests := s.requests[i := s.requests[i].(phase := phase)])
  }

  /** One step of some handler; an action that is not enabled changes nothing. */
  function Step(s: Slots, a: Action, limit: int): Slots {
    match a
    case Arrive(token, kind) => s.(requests := s.requests + [Request(token, kind, Arrived)])
    case Acquire(i) =>
      if i < |s.requests| && s.requests[i].phase == Arrived then
        var token := s.requests[i].token;
        At(s, i, if Get(s.inflight, token) < limit then Working else Refused)
          .(inflight := Acquired(s.inflight, token, limit))
      else s
    case Finish(i) =>
      if i < |s.requests| && s.requests[i].phase == Working then
        At(s, i, Done).(inflight := Released(s.inflight, s.requests[i].token))
      else s
    case Start(i) =>
      if i < |s.requests| && s.requests[i].phase == Working && s.requests[i].kind == Stream then At(s, i, Streaming)
      else s
    case Close(i) =>
      if i < |s.requests| && s.requests[i].phase == Streaming then
        At(s, i, Done).(inflight := Released(s.inflight, s.requests[i].token))
      else s
    case Drop(i) =>
      if i < |s.requests| && s.requests[i].phase == Working && s.requests[i].kind == Stream then At(s, i, Dropped)
      else s
  }

  function RunSlots(actions: seq<Action>, limit: int): Slots {
    if actions == [] then Slots(map[], [])
    else Step(RunSlots(actions[..|actions| - 1], limit), actions[|actions| - 1], limit)
  }

  predicate Holds(r: Request, token: string) {
    r.token == token && (r.phase == Working || r.phase == Streaming || r.phase == Dropped)
  }

  function Holders(rs: seq<Request>, token: string): nat {
    if rs == [] then 0 else Holders(rs[..|rs| - 1], token) + if Holds(rs[|rs| - 1], token) then 1 else 0
  }

  lemma {:induction false} HoldersUpdate(rs: seq<Request>, i: nat, r: Request, token: string)
    requires i < |rs|
    ensures Holders(rs[i := r], token)
            == Holders(rs, token) + (if Holds(r, token) then 1 else 0) - (if Holds(rs[i], token) then 1 else 0)
  {
    hide Holds;
    var n := |rs| - 1;
    if i < n {
      HoldersUpdate(rs[..n], i, r, token);
      assert rs[i := r][..n] == rs[..n][i := r];
    } else {
      assert rs[i := r][..n] == rs[..n];
    }
  }

  lemma HoldersAppend(rs: seq<Request>, r: Request, token: string)
    ensures Holders(rs + [r], token) == Holders(rs, token) + if Holds(r, token) then 1 else 0
  {
    assert (rs + [r])[..|rs|] == rs;
  }

  lemma StepKeepsCount(s: Slots, a: Action, limit: int, token: string)
    requires Get(s.inflight, token) == Holders(s.requests, token) <= Room(limit, 0)
    ensures var t := Step(s, a, limit); Get(t.inflight, token) == Holders(t.requests, token) <= Room(limit, 0)
  {
    hide Holders;
    if a.Arrive? {
      HoldersAppend(s.requests, Request(a.token, a.kind, Arrived), token);
    } else if a.i < |s.requests| {
      HoldersUpdate(s.requests, a.i, Step(s, a, limit).requests[a.i], token);
      HolderCounted(s.requests, a.i, token);
      assert s.requests[a.i := s.requests[a.i]] == s.requests;
    }
  }

  /** Over every interleaving, a token's in-flight count is the number of its requests that hold a
      slot, and never exceeds the limit. */
  lemma {:induction false} InflightCountsHolders(actions: seq<Action>, limit: int, token: string)
    ensures var s := RunSlots(actions, limit);
            Get(s.inflight, token) == Holders(s.requests, token) <= Room(limit, 0)
  {
    hide Holders, Step, Get;
    if actions == [] {
      NobodyHolds(token);
    } else {
      InflightCountsHolders(actions[..|actions| - 1], limit, token);
      StepKeepsCount(RunSlots(actions[..|actions| - 1], limit), actions[|actions| - 1], limit, token);
    }
  }

  /** No entry is left behind at zero: the table holds the tokens that hold a slot, and no others. */
  lemma NoEmptyEntries(actions: seq<Action>, limit: int)
    requires limit >= 1
    ensures var s := RunSlots(actions, limit);
            forall token :: token in s.inflight <==> Holders(s.requests, token) > 0
  {
    var s := RunSlots(actions, limit);
    EntriesArePositive(actions, limit);
    forall token ensures token in s.inflight <==> Holders(s.requests, token) > 0 {
      InflightCountsHolders(actions, limit, token);
    }
  }

  lemma {:induction false} EntriesArePositive(actions: seq<Action>, limit: int)
    requires limit >= 1
    ensures forall token | token in RunSlots(actions, limit).inflight :: RunSlots(actions, limit).inflight[token] > 0
  {
    if actions != [] {
      EntriesArePositive(actions[..|actions| - 1], limit);
    }
  }

  lemma NobodyHolds(token: string)
    ensures Get(map[], token) == Holders([], token) == 0
  {
  }

  lemma {:induction false} HolderCounted(rs: seq<Request>, i: nat, token: string)
    requires i < |rs|
    ensures Holds(rs[i], token) ==> Holders(rs, token) >= 1
  {
    if i < |rs| - 1 {
      HolderCounted(rs[..|rs| - 1], i, token);
    }
  }

  /** A request is refused a slot iff the limit is held by others. */
  lemma RefusedIffFull(actions: seq<Action>, limit: int, i: nat)
    requires var s := RunSlots(actions, limit); i < |s.requests| && s.requests[i].phase == Arrived
    ensures var s := RunSlots(actions, limit);
            Step(s, Acquire(i), limit).requests[i].phase == Refused
            <==> Holders(s.requests, s.requests[i].token) >= limit
  {
    InflightCountsHolders(actions, limit, RunSlots(actions, limit).requests[i].token);
  }

  predicate Ended(r: Request) { r.phase == Refused || r.phase == Done }

  lemma {:induction false} NoHolders(rs: seq<Request>, token: string)
    ensures Holders(rs, token) == 0 <==> forall r | r in rs :: !Holds(r, token)
  {
    hide Holds;
    if rs != [] {
      var n := |rs| - 1;
      NoHolders(rs[..n], token);
      assert rs == rs[..n] + [rs[n]];
    }
  }

  /** When no handler is at work any more, all slots are back iff no accepted stream was dropped
      before its generator started. */
  lemma AllSlotsReturnIffNoneDropped(actions: seq<Action>, limit: int)
    requires forall r | r in RunSlots(actions, limit).requests :: Ended(r) || r.phase == Dropped
    ensures (forall token :: Get(RunSlots(actions, limit).inflight, token) == 0)
            <==> forall r | r in RunSlots(actions, limit).requests :: r.phase != Dropped
  {
    var s := RunSlots(actions, limit);
    forall token
      ensures Get(s.inflight, token) == 0 <==> forall r | r in s.requests :: !Holds(r, token)
    {
      InflightCountsHolders(actions, limit, token);
      NoHolders(s.requests, token);
    }
    forall r | r in s.requests
      ensures r.phase == Dropped <==> Holds(r, r.token)
    {
    }
    if forall token :: Get(s.inflight, token) == 0 {
      forall r | r in s.requests ensures r.phase != Dropped {
        assert Get(s.inflight, r.token) == 0;
      }
    }
  }
}
