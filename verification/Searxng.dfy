/** The SearXNG provider's two safety controls: the circuit breaker with its exponential cool-down,
    and the sleeping token bucket that spaces requests. */
module Searxng {
  import opened Strings

  const TRIP_BASE_S := 1800
  const TRIP_MAX_S := 230400
  const DAY_S := 86400.0

  const CAPTCHA_MARKERS := ["sorry/index", "captcha", "unusual traffic", "blocked", "too many requests"]

  function Pow2(n: nat): (p: nat)
    ensures p >= 1
  {
    if n == 0 then 1 else 2 * Pow2(n - 1)
  }

  /** Seconds an engine stays disabled by its `n`-th trip of the day, counted from 0. */
  function Cooldown(n: nat): nat {
    if TRIP_BASE_S * Pow2(n) <= TRIP_MAX_S then TRIP_BASE_S * Pow2(n) else TRIP_MAX_S
  }

  predicate OnDay(t: real, d: int) { d as real * DAY_S <= t < (d + 1) as real * DAY_S }

  /** The UTC date of a clock reading. */
  function Day(t: real): (d: int)
    ensures OnDay(t, d)
  {
    (t / DAY_S).Floor
  }

  // ---------- specification ----------

  datatype State = State(disabledUntil: map<string, real>, tripCount: map<string, nat>, tripDay: map<string, int>)

  function DisabledUntil(s: State, engine: string): real {
    if engine in s.disabledUntil then s.disabledUntil[engine] else 0.0
  }

  predicate IsOpen(s: State, engine: string, t: real) {
    t < DisabledUntil(s, engine)
  }

  /** The two clock readings of one `record_trip`: for the date, then for the cool-down. */
  datatype Clock = Clock(dateAt: real, setAt: real)

  /** How often the engine has tripped on the day of `t`, before a trip at `t`. */
  function TripsToday(s: State, engine: string, t: real): nat { TripsFor(s, engine, Day(t)) }

  /** The trips an engine has on record for a day. */
  function TripsFor(s: State, engine: string, day: int): nat {
    if engine in s.tripDay && engine in s.tripCount && s.tripDay[engine] == day then s.tripCount[engine] else 0
  }

  function Trip(s: State, engine: string, c: Clock): State {
    var n := TripsToday(s, engine, c.dateAt);
    State(s.disabledUntil[engine := c.setAt + Cooldown(n) as real],
          s.tripCount[engine := n + 1],
          s.tripDay[engine := Day(c.dateAt)])
  }

  // ---------- the code ----------

  class CircuitBreaker {
    var disabledUntil: map<string, real>
    var tripCount: map<string, nat>
    var tripDay: map<string, int>

    /** So that the lookup of the count never misses. */
    ghost predicate Valid()
      reads this
    {
      tripDay.Keys == tripCount.Keys
    }

    ghost function Value(): State
      reads this
    {
      State(disabledUntil, tripCount, tripDay)
    }

    constructor ()
      ensures Valid() && Value() == State(map[], map[], map[])
    {
      disabledUntil, tripCount, tripDay := map[], map[], map[];
    }

    method Open(engine: string, now: real) returns (open: bool)
      ensures open == IsOpen(Value(), engine, now)
    {
      open := now < if engine in disabledUntil then disabledUntil[engine] else 0.0;
    }

    method RecordTrip(engine: string, c: Clock)
      requires Valid()
      modifies this
      ensures Valid() && Value() == Trip(old(Value()), engine, c)
    {
      hide Cooldown, Day;
      var today := Day(c.dateAt);
      if engine !in tripDay || tripDay[engine] != today {
        tripDay := tripDay[engine := today];
        tripCount := tripCount[engine := 0];
      }
      var n := tripCount[engine];
      assert tripDay == old(tripDay)[engine := today];
      assert tripCount[engine := n + 1] == old(tripCount)[engine := n + 1];
      assert n == TripsToday(old(Value()), engine, c.dateAt);
      var cooldown := Cooldown(n);
      disabledUntil := disabledUntil[engine := c.setAt + cooldown as real];
      tripCount := tripCount[engine := n + 1];
    }
  }

  /** An item of `unresponsive_engines`; `reason` is lower-cased. */
  datatype Entry = Malformed | Entry(engine: string, reason: string)

  predicate IsCaptcha(reason: string) {
    (exists m | m in CAPTCHA_MARKERS :: Find(reason, m, 0) >= 0) || Find(reason, "429", 0) >= 0
  }

  datatype Response = TransportError | Http429 | HttpError | Payload(unresponsive: seq<Entry>)

  /** One search, from its first to its last clock reading: when each engine was asked about, what
      came back, and the clock at each trip. */
  datatype Search = Search(from: real, to: real, asked: string -> real, response: Response, clocks: nat -> Clock)

  function Active(s: State, engines: seq<string>, asked: string -> real): seq<string> {
    if engines == [] then []
    else
      var n := |engines| - 1;
      Active(s, engines[..n], asked) + if IsOpen(s, engines[n], asked(engines[n])) then [] else [engines[n]]
  }

  function Flagged(active: seq<string>, entries: seq<Entry>): seq<string> {
    if entries == [] then []
    else
      var e := entries[|entries| - 1];
      Flagged(active, entries[..|entries| - 1])
      + if e.Entry? && e.engine in active && IsCaptcha(e.reason) then [e.engine] else []
  }

  /** The engines the search trips, in order. */
  function Tripped(active: seq<string>, response: Response): seq<string> {
    if active == [] then []
    else
      match response
      case Http429 => active
      case Payload(entries) => Flagged(active, entries)
      case _ => []
  }

  function TripAll(s: State, engines: seq<string>, clocks: nat -> Clock): State {
    if engines == [] then s
    else
      var n := |engines| - 1;
      Trip(TripAll(s, engines[..n], clocks), engines[n], clocks(n))
  }

  /** The provider's `search`, up to parsing: the engines asked for, or none if all are open. */
  method RunSearch(breaker: CircuitBreaker, engines: seq<string>, x: Search) returns (requested: seq<string>)
    requires breaker.Valid()
    modifies breaker
    ensures breaker.Valid()
    ensures requested == Active(old(breaker.Value()), engines, x.asked)
    ensures breaker.Value() == TripAll(old(breaker.Value()), Tripped(requested, x.response), x.clocks)
  {
    hide Trip, IsOpen, Tripped, IsCaptcha;
    ghost var s0 := breaker.Value();
    requested := [];
    for i := 0 to |engines|
      invariant breaker.Value() == s0 && breaker.Valid()
      invariant requested == Active(s0, engines[..i], x.asked)
    {
      var open := breaker.Open(engines[i], x.asked(engines[i]));
      assert engines[..i + 1][..i] == engines[..i];
      if !open {
        requested := requested + [engines[i]];
      }
    }
    assert engines[..|engines|] == engines;
    ApplyTrips(breaker, requested, x);
  }

  lemma TripNone(s: State, clocks: nat -> Clock)
    ensures TripAll(s, [], clocks) == s
  {
  }

  lemma TripAllSnoc(s: State, es: seq<string>, e: string, clocks: nat -> Clock, n: nat)
    requires n == |es|
    ensures TripAll(s, es + [e], clocks) == Trip(TripAll(s, es, clocks), e, clocks(n))
  {
    assert (es + [e])[..|es|] == es;
  }

  method ApplyTrips(breaker: CircuitBreaker, requested: seq<string>, x: Search)
    requires breaker.Valid()
    modifies breaker
    ensures breaker.Valid()
    ensures breaker.Value() == TripAll(old(breaker.Value()), Tripped(requested, x.response), x.clocks)
  {
    hide Trip, IsCaptcha, TripAll;
    ghost var s0 := breaker.Value();
    assert TripAll(s0, [], x.clocks) == s0 by {
      TripNone(s0, x.clocks);
    }
    if requested == [] {
      return;
    }
    match x.response {
      case Http429 =>
        for i := 0 to |requested|
          invariant breaker.Valid() && breaker.Value() == TripAll(s0, requested[..i], x.clocks)
        {
          assert requested[..i + 1] == requested[..i] + [requested[i]];
          TripAllSnoc(s0, requested[..i], requested[i], x.clocks, i);
          breaker.RecordTrip(requested[i], x.clocks(i));
        }
        assert requested[..|requested|] == requested;
      case Payload(entries) =>
        var done := 0;
        for i := 0 to |entries|
          invariant done == |Flagged(requested, entries[..i])|
          invariant breaker.Valid() && breaker.Value() == TripAll(s0, Flagged(requested, entries[..i]), x.clocks)
        {
          var e := entries[i];
          ghost var before := Flagged(requested, entries[..i]);
          assert entries[..i + 1][..i] == entries[..i];
          if e.Entry? && e.engine in requested && IsCaptcha(e.reason) {
            TripAllSnoc(s0, before, e.engine, x.clocks, done);
            breaker.RecordTrip(e.engine, x.clocks(done));
            done := done + 1;
          } else {
            assert before + [] == before;
          }
        }
        assert entries[..|entries|] == entries;
      case _ =>
    }
  }

  // ---------- runs of searches that do not overlap ----------

  predicate Distinct(es: seq<string>) {
    forall i, j | 0 <= i < j < |es| :: es[i] != es[j]
  }

  /** The search's clock readings are in order, and the engines are asked about before any trip. */
  ghost predicate WellTimed(x: Search) {
    && x.from <= x.to
    && (forall e :: x.from <= x.asked(e) <= x.to)
    && (forall i: nat :: x.from <= x.clocks(i).dateAt <= x.clocks(i).setAt <= x.to)
    && (forall i: nat, j: nat | i < j :: x.clocks(i).setAt <= x.clocks(j).dateAt)
    && (forall e, i: nat :: x.asked(e) <= x.clocks(i).dateAt)
  }

  ghost predicate InSequence(xs: seq<Search>) {
    && (forall k | 0 <= k < |xs| :: WellTimed(xs[k]))
    && (forall k, l | 0 <= k < l < |xs| :: xs[k].to <= xs[l].from)
  }

  /** One trip: the engine, the day, which of its trips that day, counted from 0, and when its cool-down
      starts. */
  datatype Record = Record(engine: string, day: int, n: nat, setAt: real)

  datatype World = World(state: State, log: seq<Record>)

  function TripLogged(w: World, engine: string, c: Clock): World {
    World(Trip(w.state, engine, c),
          w.log + [Record(engine, Day(c.dateAt), TripsToday(w.state, engine, c.dateAt), c.setAt)])
  }

  function TripAllLogged(w: World, engines: seq<string>, clocks: nat -> Clock): World {
    if engines == [] then w
    else
      var n := |engines| - 1;
      TripLogged(TripAllLogged(w, engines[..n], clocks), engines[n], clocks(n))
  }

  function Start(): World { World(State(map[], map[], map[]), []) }

  /** The engines the search trips when the breaker is in state `s`. */
  function TrippedBy(s: State, engines: seq<string>, x: Search): seq<string> {
    Tripped(Active(s, engines, x.asked), x.response)
  }

  /** The breaker and the log of all trips after the searches `xs`. */
  function WorldAfter(engines: seq<string>, xs: seq<Search>): World {
    if xs == [] then Start()
    else
      var w, x := WorldAfter(engines, xs[..|xs| - 1]), xs[|xs| - 1];
      TripAllLogged(w, TrippedBy(w.state, engines, x), x.clocks)
  }

  lemma {:induction false} LogFollowsState(w: World, engines: seq<string>, clocks: nat -> Clock)
    ensures TripAllLogged(w, engines, clocks).state == TripAll(w.state, engines, clocks)
  {
    if engines != [] {
      LogFollowsState(w, engines[..|engines| - 1], clocks);
    }
  }

  /** No search trips an engine twice: none is named twice by a response. */
  ghost predicate NamedOnce(engines: seq<string>, xs: seq<Search>) {
    forall k | 0 <= k < |xs| :: Distinct(TrippedBy(WorldAfter(engines, xs[..k]).state, engines, xs[k]))
  }

  /** The payload of the search names no engine twice. */
  predicate NamesOnce(x: Search) {
    x.response.Payload? ==>
      forall i, j | 0 <= i < j < |x.response.unresponsive| ::
        var p, q := x.response.unresponsive[i], x.response.unresponsive[j];
        p.Entry? && q.Entry? ==> p.engine != q.engine
  }

  lemma DistinctSnoc(a: seq<string>, e: string)
    requires Distinct(a) && e !in a
    ensures Distinct(a + [e])
  {
  }

  lemma {:induction false} ActiveDistinct(s: State, engines: seq<string>, asked: string -> real)
    requires Distinct(engines)
    ensures Distinct(Active(s, engines, asked)) && forall e | e in Active(s, engines, asked) :: e in engines
  {
    hide IsOpen;
    if engines != [] {
      var n := |engines| - 1;
      var before := Active(s, engines[..n], asked);
      ActiveDistinct(s, engines[..n], asked);
      assert engines[n] !in engines[..n];
      DistinctSnoc(before, engines[n]);
    }
  }

  lemma {:induction false} FlaggedDistinct(active: seq<string>, entries: seq<Entry>)
    requires forall i, j | 0 <= i < j < |entries| && entries[i].Entry? && entries[j].Entry? ::
               entries[i].engine != entries[j].engine
    ensures Distinct(Flagged(active, entries))
    ensures forall e | e in Flagged(active, entries) ::
              exists i | 0 <= i < |entries| :: entries[i].Entry? && entries[i].engine == e
  {
    hide IsCaptcha;
    if entries != [] {
      var n := |entries| - 1;
      FlaggedDistinct(active, entries[..n]);
      var before := Flagged(active, entries[..n]);
      if entries[n].Entry? && entries[n].engine !in before {
        DistinctSnoc(before, entries[n].engine);
      }
      forall e | e in Flagged(active, entries)
        ensures exists i | 0 <= i < |entries| :: entries[i].Entry? && entries[i].engine == e
      {
        if e in Flagged(active, entries[..n]) {
          var i :| 0 <= i < n && entries[..n][i].Entry? && entries[..n][i].engine == e;
          assert entries[i].Entry? && entries[i].engine == e;
        } else {
          assert entries[n].Entry? && entries[n].engine == e;
        }
      }
    }
  }

  /** Distinct engines, and responses that name none twice, are enough. */
  lemma DistinctNamesTripOnce(engines: seq<string>, xs: seq<Search>)
    requires Distinct(engines) && forall k | 0 <= k < |xs| :: NamesOnce(xs[k])
    ensures NamedOnce(engines, xs)
  {
    hide Active, WorldAfter;
    forall k | 0 <= k < |xs| ensures Distinct(TrippedBy(WorldAfter(engines, xs[..k]).state, engines, xs[k])) {
      var s := WorldAfter(engines, xs[..k]).state;
      ActiveDistinct(s, engines, xs[k].asked);
      if xs[k].response.Payload? {
        FlaggedDistinct(Active(s, engines, xs[k].asked), xs[k].response.unresponsive);
      }
    }
  }

  function TripsOn(log: seq<Record>, engine: string, day: int): nat {
    if log == [] then 0
    else
      var r := log[|log| - 1];
      TripsOn(log[..|log| - 1], engine, day) + if r.engine == engine && r.day == day then 1 else 0
  }

  /** After `n` trips on day `d`, an engine is disabled until all their cool-downs have passed. */
  predicate Spaced(s: State, engine: string) {
    engine in s.tripDay ==>
      && engine in s.tripCount && engine in s.disabledUntil && 1 <= s.tripCount[engine] <= 6
      && s.tripDay[engine] as real * DAY_S + (TRIP_BASE_S * (Pow2(s.tripCount[engine]) - 1)) as real
         <= s.disabledUntil[engine]
  }

  predicate CountsMatch(w: World, engine: string, day: int, t: real) {
    && TripsOn(w.log, engine, day) <= 6
    && (engine !in w.state.tripDay ==> TripsOn(w.log, engine, day) == 0)
    && (engine in w.state.tripDay ==>
          && engine in w.state.tripCount
          && w.state.tripDay[engine] <= Day(t)
          && (w.state.tripDay[engine] == day ==> TripsOn(w.log, engine, day) == w.state.tripCount[engine])
          && (w.state.tripDay[engine] < day ==> TripsOn(w.log, engine, day) == 0))
  }

  ghost predicate Safe(w: World, t: real) {
    && (forall e :: Spaced(w.state, e))
    && (forall e, d :: CountsMatch(w, e, d, t))
    && (forall r | r in w.log :: r.n <= 5)
    && (forall k | 0 <= k < |w.log| :: NumberedRight(w.log, k))
  }

  /** A trip's number is how many the engine had that day before it. */
  predicate NumberedRight(log: seq<Record>, k: nat)
    requires k < |log|
  {
    log[k].n == TripsOn(log[..k], log[k].engine, log[k].day)
  }

  lemma Pow2Steps()
    ensures Pow2(0) == 1 && Pow2(1) == 2 && Pow2(2) == 4 && Pow2(3) == 8 && Pow2(4) == 16 && Pow2(5) == 32
    ensures Pow2(6) == 64 && Pow2(7) == 128
  {
    assert Pow2(4) == 16;
  }

  lemma DayMonotone(s: real, t: real)
    requires s <= t
    ensures Day(s) <= Day(t)
  {
    var d, e := Day(s), Day(t);
    assert e + 1 <= d ==> (e + 1) as real <= d as real;
  }

  /** The heart of the matter: an engine that was closed when asked about trips, that day, for the
      sixth time at most, and stays spaced. */
  lemma TripStaysSpaced(s: State, engine: string, asked: real, c: Clock)
    requires Spaced(s, engine) && !IsOpen(s, engine, asked)
    requires asked <= c.dateAt <= c.setAt
    ensures TripsToday(s, engine, c.dateAt) <= 5
    ensures Spaced(Trip(s, engine, c), engine)
  {
    Pow2Steps();
    var n := TripsToday(s, engine, c.dateAt);
    var d := Day(c.dateAt);
    if n > 0 {
      assert (TRIP_BASE_S * (Pow2(n) - 1)) as real < DAY_S;
      assert n != 6;
    }
    assert Pow2(n + 1) == 2 * Pow2(n);
    assert Cooldown(n) == TRIP_BASE_S * Pow2(n);
    assert TRIP_BASE_S * (Pow2(n + 1) - 1) == TRIP_BASE_S * (Pow2(n) - 1) + TRIP_BASE_S * Pow2(n);
    assert d as real * DAY_S + (TRIP_BASE_S * (Pow2(n) - 1)) as real <= c.setAt;
  }

  lemma TripOthers(s: State, engine: string, c: Clock, other: string)
    requires other != engine && Spaced(s, other)
    ensures Spaced(Trip(s, engine, c), other) && DisabledUntil(Trip(s, engine, c), other) == DisabledUntil(s, other)
  {
    hide Cooldown, Pow2;
  }

  lemma CountsStep(w: World, engine: string, c: Clock, e: string, d: int, t: real)
    requires CountsMatch(w, e, d, t) && t <= c.dateAt && TripsToday(w.state, engine, c.dateAt) <= 5
    ensures CountsMatch(TripLogged(w, engine, c), e, d, c.dateAt)
  {
    hide Cooldown;
    DayMonotone(t, c.dateAt);
    var v := TripLogged(w, engine, c);
    assert v.log[..|v.log| - 1] == w.log;
  }

  lemma CountsLater(w: World, e: string, d: int, s: real, t: real)
    requires CountsMatch(w, e, d, s) && s <= t
    ensures CountsMatch(w, e, d, t)
  {
    DayMonotone(s, t);
  }

  lemma TripStaysSafe(w: World, engine: string, asked: real, c: Clock, s: real)
    requires Safe(w, s) && s <= c.dateAt && !IsOpen(w.state, engine, asked) && asked <= c.dateAt <= c.setAt
    ensures Safe(TripLogged(w, engine, c), c.dateAt)
  {
    hide Trip, TripsToday, Spaced, CountsMatch;
    assert Spaced(w.state, engine);
    TripStaysSpaced(w.state, engine, asked, c);
    forall e ensures Spaced(Trip(w.state, engine, c), e) {
      if e != engine {
        assert Spaced(w.state, e);
        TripOthers(w.state, engine, c, e);
      }
    }
    forall e, d ensures CountsMatch(TripLogged(w, engine, c), e, d, c.dateAt) {
      CountsStep(w, engine, c, e, d, s);
    }
    var v := TripLogged(w, engine, c);
    forall k | 0 <= k < |v.log| ensures NumberedRight(v.log, k) {
      if k < |w.log| {
        assert NumberedRight(w.log, k) && v.log[..k] == w.log[..k];
      } else {
        assert CountsMatch(w, engine, Day(c.dateAt), s);
        NextNumber(w, engine, s, c.dateAt);
        assert v.log[..k] == w.log;
      }
    }
  }

  lemma NextNumber(w: World, engine: string, s: real, t: real)
    requires CountsMatch(w, engine, Day(t), s) && s <= t
    ensures TripsToday(w.state, engine, t) == TripsOn(w.log, engine, Day(t))
  {
    hide TripsOn;
    DayMonotone(s, t);
  }

  lemma SafeLater(w: World, s: real, t: real)
    requires Safe(w, s) && s <= t
    ensures Safe(w, t)
  {
    hide CountsMatch, Spaced;
    forall e, d ensures CountsMatch(w, e, d, t) {
      CountsLater(w, e, d, s, t);
    }
  }

  /** No request names an engine that is not configured, or was open when the engines were chosen. */
  lemma {:induction false} RequestsOnlyClosed(s: State, engines: seq<string>, asked: string -> real, e: string)
    requires e in Active(s, engines, asked)
    ensures e in engines && !IsOpen(s, e, asked(e))
  {
    hide IsOpen;
    if e !in Active(s, engines[..|engines| - 1], asked) {
      assert e == engines[|engines| - 1];
    } else {
      RequestsOnlyClosed(s, engines[..|engines| - 1], asked, e);
    }
  }

  /** A search requests exactly the configured engines that were closed. */
  lemma {:induction false} RequestedIff(s: State, engines: seq<string>, asked: string -> real, e: string)
    ensures e in Active(s, engines, asked) <==> e in engines && !IsOpen(s, e, asked(e))
  {
    hide IsOpen;
    if engines != [] {
      var n := |engines| - 1;
      RequestedIff(s, engines[..n], asked, e);
      assert engines == engines[..n] + [engines[n]];
    }
  }

  /** The reasons that look like a captcha or a rate limit. */
  lemma CaptchaIff(reason: string)
    ensures IsCaptcha(reason)
            <==> || Contains(reason, "sorry/index") || Contains(reason, "captcha")
                 || Contains(reason, "unusual traffic") || Contains(reason, "blocked")
                 || Contains(reason, "too many requests") || Contains(reason, "429")
  {
    hide OccursAt;
    forall m ensures Find(reason, m, 0) >= 0 <==> Contains(reason, m) {
      FindIff(reason, m);
    }
    var markers := CAPTCHA_MARKERS;
    assert markers[0] == "sorry/index" && markers[1] == "captcha" && markers[2] == "unusual traffic";
    assert markers[3] == "blocked" && markers[4] == "too many requests";
  }

  lemma FindIff(s: string, w: string)
    ensures Find(s, w, 0) >= 0 <==> Contains(s, w)
  {
    if i :| OccursAt(s, w, i) {
      assert 0 <= i;
    }
  }

  /** The payload says of the engine that it met a captcha or a rate limit. */
  predicate Reported(entries: seq<Entry>, engine: string) {
    exists i | 0 <= i < |entries| :: entries[i].Entry? && entries[i].engine == engine && IsCaptcha(entries[i].reason)
  }

  lemma {:induction false} FlaggedIff(active: seq<string>, entries: seq<Entry>, e: string)
    ensures e in Flagged(active, entries) <==> e in active && Reported(entries, e)
  {
    hide IsCaptcha;
    if entries != [] {
      var n := |entries| - 1;
      FlaggedIff(active, entries[..n], e);
      if Reported(entries[..n], e) {
        var i :| 0 <= i < n && entries[..n][i].Entry? && entries[..n][i].engine == e
                 && IsCaptcha(entries[..n][i].reason);
        assert entries[i] == entries[..n][i];
      }
      if Reported(entries, e) {
        var i :| 0 <= i <= n && entries[i].Entry? && entries[i].engine == e && IsCaptcha(entries[i].reason);
        assert i < n ==> entries[..n][i] == entries[i];
      }
    }
  }

  /** A search trips an engine iff it requested it and was answered with 429, or with a payload that reports
      the engine. */
  lemma TrippedIff(active: seq<string>, response: Response, e: string)
    ensures e in Tripped(active, response)
            <==> e in active
                 && (response.Http429? || (response.Payload? && Reported(response.unresponsive, e)))
  {
    hide Flagged, Reported;
    if response.Payload? {
      FlaggedIff(active, response.unresponsive, e);
    }
  }

  lemma {:induction false} FlaggedAreActive(active: seq<string>, entries: seq<Entry>, e: string)
    requires e in Flagged(active, entries)
    ensures e in active
  {
    hide IsCaptcha;
    if e in Flagged(active, entries[..|entries| - 1]) {
      FlaggedAreActive(active, entries[..|entries| - 1], e);
    }
  }

  lemma TrippedWereClosed(s: State, engines: seq<string>, x: Search, e: string)
    requires e in TrippedBy(s, engines, x)
    ensures !IsOpen(s, e, x.asked(e))
  {
    hide IsOpen;
    var active := Active(s, engines, x.asked);
    if x.response.Payload? {
      FlaggedAreActive(active, x.response.unresponsive, e);
    }
    RequestsOnlyClosed(s, engines, x.asked, e);
  }

  /** Within one search, engines still to be tripped keep the state they had when asked about. */
  lemma {:induction false} TripsStaySafe(w: World, es: seq<string>, x: Search, n: nat, s: real)
    requires n <= |es| && Distinct(es) && WellTimed(x) && Safe(w, s) && s <= x.from
    requires forall e | e in es :: !IsOpen(w.state, e, x.asked(e))
    ensures Safe(TripAllLogged(w, es[..n], x.clocks), if n == 0 then s else x.clocks(n - 1).dateAt)
    ensures forall e | e !in es[..n] ::
              DisabledUntil(TripAllLogged(w, es[..n], x.clocks).state, e) == DisabledUntil(w.state, e)
  {
    hide Safe, Trip, TripsToday;
    if n > 0 {
      var v, e, c := TripAllLogged(w, es[..n - 1], x.clocks), es[n - 1], x.clocks(n - 1);
      TripsStaySafe(w, es, x, n - 1, s);
      assert es[..n][..n - 1] == es[..n - 1];
      var t := if n == 1 then s else x.clocks(n - 2).dateAt;
      assert n > 1 ==> x.clocks(n - 2).dateAt <= x.clocks(n - 2).setAt;
      assert e !in es[..n - 1];
      TripStaysSafe(v, e, x.asked(e), c, t);
      forall o | o !in es[..n]
        ensures DisabledUntil(Trip(v.state, e, c), o) == DisabledUntil(w.state, o)
      {
        TripKeepsOthers(v.state, e, c, o);
        assert es[n - 1] in es[..n];
      }
    }
  }

  lemma TripKeepsOthers(s: State, engine: string, c: Clock, other: string)
    requires other != engine
    ensures DisabledUntil(Trip(s, engine, c), other) == DisabledUntil(s, other)
  {
    hide Cooldown, TripsToday;
  }

  /** The last clock reading of the searches. */
  function EndOf(xs: seq<Search>): real { if xs == [] then 0.0 else xs[|xs| - 1].to }

  ghost predicate FairRun(engines: seq<string>, xs: seq<Search>) {
    InSequence(xs) && NamedOnce(engines, xs) && (xs != [] ==> xs[0].from >= 0.0)
  }

  lemma FairPrefix(engines: seq<string>, xs: seq<Search>)
    requires xs != [] && FairRun(engines, xs)
    ensures var n := |xs| - 1;
            && FairRun(engines, xs[..n]) && EndOf(xs[..n]) <= xs[n].from && WellTimed(xs[n])
            && Distinct(TrippedBy(WorldAfter(engines, xs[..n]).state, engines, xs[n]))
  {
    hide WellTimed, WorldAfter, TrippedBy;
    var n := |xs| - 1;
    forall k | 0 <= k < n
      ensures Distinct(TrippedBy(WorldAfter(engines, xs[..n][..k]).state, engines, xs[..n][k]))
    {
      assert xs[..n][..k] == xs[..k];
    }
  }

  lemma SearchStaysSafe(engines: seq<string>, w: World, x: Search, s: real)
    requires Safe(w, s) && s <= x.from && WellTimed(x) && Distinct(TrippedBy(w.state, engines, x))
    ensures Safe(TripAllLogged(w, TrippedBy(w.state, engines, x), x.clocks), x.to)
  {
    var es := TrippedBy(w.state, engines, x);
    var t := if |es| == 0 then s else x.clocks(|es| - 1).dateAt;
    assert t <= x.to;
    hide TrippedBy, Safe, IsOpen, TripAllLogged;
    forall e | e in es ensures !IsOpen(w.state, e, x.asked(e)) {
      TrippedWereClosed(w.state, engines, x, e);
    }
    TripsStaySafe(w, es, x, |es|, s);
    assert es[..|es|] == es;
    SafeLater(TripAllLogged(w, es, x.clocks), t, x.to);
  }

  lemma StartIsSafe()
    ensures Safe(Start(), 0.0)
  {
  }

  lemma {:induction false} RunStaysSafe(engines: seq<string>, xs: seq<Search>)
    requires FairRun(engines, xs)
    ensures Safe(WorldAfter(engines, xs), EndOf(xs))
  {
    hide Safe, FairRun, TrippedBy, TripAllLogged, Start, WellTimed;
    if xs == [] {
      StartIsSafe();
    } else {
      var n := |xs| - 1;
      FairPrefix(engines, xs);
      RunStaysSafe(engines, xs[..n]);
      SearchStaysSafe(engines, WorldAfter(engines, xs[..n]), xs[n], EndOf(xs[..n]));
    }
  }

  lemma EarlyCooldown(n: nat)
    requires n <= 5
    ensures Cooldown(n) <= 16 * 3600 && Cooldown(n) == TRIP_BASE_S * Pow2(n) < TRIP_MAX_S
  {
    Pow2Steps();
  }

  /** In any run of searches that do not overlap, over engines that no response names twice, an
      engine trips at most 6 times a UTC day, its cool-down never exceeds 16 hours, and the 64-hour
      cap is never applied. */
  lemma AtMostSixTripsADay(engines: seq<string>, xs: seq<Search>, engine: string, day: int)
    requires FairRun(engines, xs)
    ensures TripsOn(WorldAfter(engines, xs).log, engine, day) <= 6
    ensures forall r | r in WorldAfter(engines, xs).log ::
              Cooldown(r.n) <= 16 * 3600 && Cooldown(r.n) == TRIP_BASE_S * Pow2(r.n) < TRIP_MAX_S
  {
    hide FairRun, WorldAfter, Cooldown, Pow2, Spaced, TripsOn;
    RunStaysSafe(engines, xs);
    var w := WorldAfter(engines, xs);
    assert CountsMatch(w, engine, day, EndOf(xs));
    forall r | r in w.log
      ensures Cooldown(r.n) <= 16 * 3600 && Cooldown(r.n) == TRIP_BASE_S * Pow2(r.n) < TRIP_MAX_S
    {
      EarlyCooldown(r.n);
    }
  }

  // ---------- when an engine is open ----------

  function LastTrip(log: seq<Record>, engine: string): (r: seq<Record>)
    ensures |r| <= 1
  {
    if log == [] then []
    else if log[|log| - 1].engine == engine then [log[|log| - 1]]
    else LastTrip(log[..|log| - 1], engine)
  }

  /** Half an hour, doubled for each earlier trip that day, and 64 hours at most. */
  function Hours(n: nat): real {
    if Pow2(n) <= 128 then 0.5 * Pow2(n) as real else 64.0
  }

  /** The engine is disabled as its last trip says, and not at all if it never tripped. */
  ghost predicate TellsLastTrip(w: World, engine: string) {
    var r := LastTrip(w.log, engine);
    DisabledUntil(w.state, engine) == if r == [] then 0.0 else r[0].setAt + 3600.0 * Hours(r[0].n)
  }

  lemma CooldownIsHours(n: nat)
    ensures Cooldown(n) as real == 3600.0 * Hours(n)
  {
    assert TRIP_BASE_S * Pow2(n) <= TRIP_MAX_S <==> Pow2(n) <= 128;
  }

  lemma TripTells(w: World, tripped: string, c: Clock, engine: string)
    requires TellsLastTrip(w, engine)
    ensures TellsLastTrip(TripLogged(w, tripped, c), engine)
  {
    hide Cooldown, TripsToday, Hours;
    var v := TripLogged(w, tripped, c);
    assert v.log[..|v.log| - 1] == w.log;
    CooldownIsHours(TripsToday(w.state, tripped, c.dateAt));
  }

  lemma {:induction false} TripsTell(w: World, es: seq<string>, clocks: nat -> Clock, engine: string)
    requires TellsLastTrip(w, engine)
    ensures TellsLastTrip(TripAllLogged(w, es, clocks), engine)
  {
    hide TellsLastTrip, TripLogged;
    if es != [] {
      var n := |es| - 1;
      TripsTell(w, es[..n], clocks, engine);
      TripTells(TripAllLogged(w, es[..n], clocks), es[n], clocks(n), engine);
    }
  }

  lemma {:induction false} RunTells(engines: seq<string>, xs: seq<Search>, engine: string)
    ensures TellsLastTrip(WorldAfter(engines, xs), engine)
  {
    hide TripAllLogged, TrippedBy;
    if xs != [] {
      var w, x := WorldAfter(engines, xs[..|xs| - 1]), xs[|xs| - 1];
      RunTells(engines, xs[..|xs| - 1], engine);
      TripsTell(w, TrippedBy(w.state, engines, x), x.clocks, engine);
    }
  }

  /** After any run of searches, an engine is open iff it has tripped and its last trip's cool-down is not
      over: half an hour, doubled for each earlier trip that day, 64 hours at most. */
  lemma OpenIffLastTrip(engines: seq<string>, xs: seq<Search>, engine: string, t: real)
    requires t >= 0.0
    ensures var r := LastTrip(WorldAfter(engines, xs).log, engine);
            IsOpen(WorldAfter(engines, xs).state, engine, t)
            <==> r != [] && t < r[0].setAt + 3600.0 * Hours(r[0].n)
  {
    hide WorldAfter, LastTrip, Hours;
    RunTells(engines, xs, engine);
  }

  /** The trips of a run of searches that do not overlap are numbered within their engine and day. */
  lemma TripsAreNumbered(engines: seq<string>, xs: seq<Search>, k: nat)
    requires FairRun(engines, xs) && k < |WorldAfter(engines, xs).log|
    ensures var log := WorldAfter(engines, xs).log;
            log[k].n == TripsOn(log[..k], log[k].engine, log[k].day)
  {
    hide FairRun, WorldAfter, TripsOn, Spaced, CountsMatch;
    RunStaysSafe(engines, xs);
    assert NumberedRight(WorldAfter(engines, xs).log, k);
  }

  /** The cap is reached from the eighth trip of a day on, and only then. */
  lemma {:induction false} CapReachedIff(n: nat)
    ensures Cooldown(n) == TRIP_MAX_S <==> n >= 7
  {
    Pow2Steps();
    if n > 7 {
      CapReachedIff(n - 1);
    }
  }

  /** How often an engine is named. */
  function Times(es: seq<string>, engine: string): nat {
    if es == [] then 0 else Times(es[..|es| - 1], engine) + if es[|es| - 1] == engine then 1 else 0
  }

  /** All trips are dated to one day. */
  ghost predicate OneDay(clocks: nat -> Clock, day: int) { forall i: nat :: Day(clocks(i).dateAt) == day }

  lemma TripAdds(s: State, e: string, c: Clock, engine: string)
    ensures TripsFor(Trip(s, e, c), engine, Day(c.dateAt))
            == TripsFor(s, engine, Day(c.dateAt)) + if e == engine then 1 else 0
  {
    hide Cooldown, Day;
  }

  /** On one day, each mention of an engine is one more trip of it. */
  lemma {:induction false} TripsAdd(s: State, es: seq<string>, clocks: nat -> Clock, engine: string, day: int)
    requires OneDay(clocks, day)
    ensures TripsFor(TripAll(s, es, clocks), engine, day) == TripsFor(s, engine, day) + Times(es, engine)
  {
    hide Trip, TripsFor;
    if es != [] {
      var n := |es| - 1;
      TripsAdd(s, es[..n], clocks, engine, day);
      TripAdds(TripAll(s, es[..n], clocks), es[n], clocks(n), engine);
    }
  }

  /** Trip `i` of the list is one of the engine, and its cool-down is the cap. */
  ghost predicate CapAt(s: State, es: seq<string>, clocks: nat -> Clock, engine: string, i: nat)
    requires i < |es|
  {
    es[i] == engine && Cooldown(TripsToday(TripAll(s, es[..i], clocks), engine, clocks(i).dateAt)) == TRIP_MAX_S
  }

  lemma CapAtIff(s: State, es: seq<string>, clocks: nat -> Clock, engine: string, day: int, i: nat)
    requires OneDay(clocks, day) && i < |es|
    ensures CapAt(s, es, clocks, engine, i)
            <==> es[i] == engine && TripsFor(s, engine, day) + Times(es[..i], engine) >= 7
  {
    var v := TripAll(s, es[..i], clocks);
    assert TripsToday(v, engine, clocks(i).dateAt) == TripsFor(v, engine, day);
    hide TripsToday, TripsFor, TripAll, Cooldown;
    TripsAdd(s, es[..i], clocks, engine, day);
    CapReachedIff(TripsFor(s, engine, day) + Times(es[..i], engine));
  }

  lemma {:induction false} TimesGrow(es: seq<string>, i: nat, engine: string)
    requires i < |es|
    ensures Times(es[..i], engine) + (if es[i] == engine then 1 else 0) <= Times(es, engine)
  {
    var n := |es| - 1;
    if i < n {
      TimesGrow(es[..n], i, engine);
      assert es[..n][..i] == es[..i];
    }
  }

  /** The last mention of an engine. */
  lemma {:induction false} LastMention(es: seq<string>, engine: string) returns (i: nat)
    requires Times(es, engine) > 0
    ensures i < |es| && es[i] == engine && Times(es[..i], engine) == Times(es, engine) - 1
  {
    var n := |es| - 1;
    if es[n] == engine {
      i := n;
    } else {
      i := LastMention(es[..n], engine);
      assert es[..n][..i] == es[..i];
    }
  }

  /** Whatever the state and whatever is tripped: of an engine with at most 7 trips on a day so far, some
      further trip that day applies the cap iff these and its mentions are 8 or more together. */
  lemma CapAppliesIff(s: State, es: seq<string>, clocks: nat -> Clock, engine: string, day: int)
    requires OneDay(clocks, day) && TripsFor(s, engine, day) <= 7
    ensures (exists i | 0 <= i < |es| :: CapAt(s, es, clocks, engine, i))
            <==> TripsFor(s, engine, day) + Times(es, engine) >= 8
  {
    hide CapAt, TripsFor, Times;
    var n, m := TripsFor(s, engine, day), Times(es, engine);
    if i :| 0 <= i < |es| && CapAt(s, es, clocks, engine, i) {
      CapAtIff(s, es, clocks, engine, day, i);
      TimesGrow(es, i, engine);
    }
    if n + m >= 8 {
      var i := LastMention(es, engine);
      CapAtIff(s, es, clocks, engine, day, i);
    }
  }

  lemma {:induction false} RepeatedTrips(engine: string, n: nat, clocks: nat -> Clock, t: real)
    requires forall i: nat :: clocks(i) == Clock(t, t)
    ensures TripsFor(TripAll(Start().state, seq(n, _ => engine), clocks), engine, Day(t)) == n
  {
    hide Trip;
    TripsAdd(Start().state, seq(n, _ => engine), clocks, engine, Day(t));
    TimesOfOne(engine, n);
  }

  lemma {:induction false} TimesOfOne(engine: string, n: nat)
    ensures Times(seq(n, _ => engine), engine) == n
  {
    if n > 0 {
      var es := seq(n, _ => engine);
      assert es[..n - 1] == seq(n - 1, _ => engine);
      TimesOfOne(engine, n - 1);
    }
  }

  /** Why responses must not repeat an engine: one that names it eight times trips it eight times at
      once, and the last cool-down is the cap. */
  lemma RepeatedNamesReachTheCap(engine: string, clocks: nat -> Clock, t: real)
    requires forall i: nat :: clocks(i) == Clock(t, t)
    ensures var entries := seq(8, _ => Entry(engine, "429"));
            && Tripped([engine], Payload(entries)) == seq(8, _ => engine)
            && TripAll(Start().state, seq(8, _ => engine), clocks).disabledUntil[engine] == t + TRIP_MAX_S as real
  {
    hide Cooldown, TripsToday, Flagged;
    FlaggedRepeated(engine, 8);
    RepeatedTrips(engine, 7, clocks, t);
    CapReachedIff(7);
    var es := seq(8, _ => engine);
    assert es[..7] == seq(7, _ => engine);
    LastCooldown(TripAll(Start().state, es[..7], clocks), engine, clocks(7), 7);
  }

  lemma LastCooldown(s: State, engine: string, c: Clock, n: nat)
    requires TripsFor(s, engine, Day(c.dateAt)) == n
    ensures Trip(s, engine, c).disabledUntil[engine] == c.setAt + Cooldown(n) as real
  {
    hide Cooldown, Day;
  }

  lemma {:induction false} FlaggedRepeated(engine: string, n: nat)
    ensures Flagged([engine], seq(n, _ => Entry(engine, "429"))) == seq(n, _ => engine)
  {
    assert OccursAt("429", "429", 0);
    assert IsCaptcha("429");
    if n > 0 {
      var es := seq(n, _ => Entry(engine, "429"));
      assert es[..n - 1] == seq(n - 1, _ => Entry(engine, "429"));
      FlaggedRepeated(engine, n - 1);
    }
  }

  // ---------- searches that overlap ----------

  /** One engine's view of searches that may overlap: a search finds it closed and goes on, and later
      returns, with a trip or without. */
  datatype View = Asked(t: real) | Returned(trips: bool, c: Clock)

  /** The breaker, the searches under way that found the engine closed, and the dates of its trips. */
  datatype Overlap = Overlap(state: State, waiting: nat, trips: seq<int>)

  /** A search that finds the engine open does not ask for it; one that is not under way cannot return. */
  function Seen(w: Overlap, engine: string, v: View): Overlap {
    match v
    case Asked(t) => if IsOpen(w.state, engine, t) then w else w.(waiting := w.waiting + 1)
    case Returned(trips, c) =>
      if w.waiting == 0 then w
      else if !trips then w.(waiting := w.waiting - 1)
      else Overlap(Trip(w.state, engine, c), w.waiting - 1, w.trips + [Day(c.dateAt)])
  }

  function SeenAll(engine: string, vs: seq<View>): Overlap {
    if vs == [] then Overlap(Start().state, 0, []) else Seen(SeenAll(engine, vs[..|vs| - 1]), engine, vs[|vs| - 1])
  }

  function DatedTo(trips: seq<int>, day: int): nat {
    if trips == [] then 0 else DatedTo(trips[..|trips| - 1], day) + if trips[|trips| - 1] == day then 1 else 0
  }

  predicate ViewTimed(v: View, from: real, to: real) {
    match v case Asked(t) => from <= t <= to case Returned(_, c) => from <= c.dateAt <= c.setAt <= to
  }

  ghost predicate ViewsTimed(vs: seq<View>, ticks: seq<real>) {
    |ticks| == |vs| + 1 && forall i | 0 <= i < |vs| :: ViewTimed(vs[i], ticks[i], ticks[i + 1])
  }

  /** Never more than `k` searches are under way that found the engine closed. */
  ghost predicate AtMostWaiting(engine: string, vs: seq<View>, k: nat) {
    forall n | 0 <= n <= |vs| :: SeenAll(engine, vs[..n]).waiting <= k
  }

  /** No day has more than 6 + k trips. After the seventh the engine stays open until the day is over, so
      what is left that day are the searches still under way. */
  ghost predicate FewTrips(w: Overlap, engine: string, k: nat, t: real) {
    && (forall d :: DatedTo(w.trips, d) <= 6 + k)
    && (engine !in w.state.tripDay ==> forall d :: DatedTo(w.trips, d) == 0)
    && (engine in w.state.tripDay ==>
          && engine in w.state.tripCount && w.state.tripDay[engine] <= Day(t)
          && (forall d | d > w.state.tripDay[engine] :: DatedTo(w.trips, d) == 0)
          && DatedTo(w.trips, w.state.tripDay[engine]) == w.state.tripCount[engine]
          && (w.state.tripDay[engine] == Day(t) && w.state.tripCount[engine] >= 7 ==>
                && (Day(t) + 1) as real * DAY_S <= DisabledUntil(w.state, engine)
                && w.state.tripCount[engine] + w.waiting <= 6 + k))
  }

  lemma FewTripsLater(w: Overlap, engine: string, k: nat, s: real, t: real)
    requires FewTrips(w, engine, k, s) && s <= t
    ensures FewTrips(w, engine, k, t)
  {
    DayMonotone(s, t);
  }

  lemma {:induction false} LateCooldown(n: nat)
    requires n >= 6
    ensures Cooldown(n) as real >= DAY_S
  {
    Pow2Steps();
    CapReachedIff(n);
  }

  lemma TripStaysFew(w: Overlap, engine: string, k: nat, c: Clock)
    requires FewTrips(w, engine, k, c.dateAt) && 0 < w.waiting <= k && c.dateAt <= c.setAt
    ensures FewTrips(Seen(w, engine, Returned(true, c)), engine, k, c.dateAt)
  {
    var v := Seen(w, engine, Returned(true, c));
    var d := Day(c.dateAt);
    var n := TripsToday(w.state, engine, c.dateAt);
    assert v.trips[..|v.trips| - 1] == w.trips;
    assert forall e :: DatedTo(v.trips, e) == DatedTo(w.trips, e) + if e == d then 1 else 0;
    assert DatedTo(w.trips, d) == n;
    hide Pow2, Cooldown, DatedTo;
    if n >= 6 {
      LateCooldown(n);
      assert (d + 1) as real * DAY_S == d as real * DAY_S + DAY_S;
    }
  }

  lemma ViewStaysFew(w: Overlap, engine: string, k: nat, v: View, from: real, to: real)
    requires FewTrips(w, engine, k, from) && w.waiting <= k && ViewTimed(v, from, to)
    ensures FewTrips(Seen(w, engine, v), engine, k, to)
  {
    hide FewTrips, Trip;
    match v {
      case Asked(t) =>
        FewTripsLater(w, engine, k, from, t);
        AskStaysFew(w, engine, k, t);
        FewTripsLater(Seen(w, engine, v), engine, k, t, to);
      case Returned(trips, c) =>
        FewTripsLater(w, engine, k, from, c.dateAt);
        if trips && w.waiting > 0 {
          TripStaysFew(w, engine, k, c);
        } else {
          FewerWaiting(w, Seen(w, engine, v), engine, k, c.dateAt);
        }
        FewTripsLater(Seen(w, engine, v), engine, k, c.dateAt, to);
    }
  }

  lemma FewerWaiting(w: Overlap, v: Overlap, engine: string, k: nat, t: real)
    requires FewTrips(w, engine, k, t) && v.state == w.state && v.trips == w.trips && v.waiting <= w.waiting
    ensures FewTrips(v, engine, k, t)
  {
  }

  lemma AskStaysFew(w: Overlap, engine: string, k: nat, t: real)
    requires FewTrips(w, engine, k, t)
    ensures FewTrips(Seen(w, engine, Asked(t)), engine, k, t)
  {
    hide DatedTo;
  }

  lemma {:induction false} RunHasFewTrips(engine: string, vs: seq<View>, ticks: seq<real>, k: nat)
    requires ViewsTimed(vs, ticks) && AtMostWaiting(engine, vs, k)
    ensures FewTrips(SeenAll(engine, vs), engine, k, ticks[|vs|])
  {
    hide FewTrips, Seen, ViewTimed;
    if vs == [] {
      NoTripsAreFew(engine, k, ticks[0]);
    } else {
      var n := |vs| - 1;
      forall m | 0 <= m <= n ensures SeenAll(engine, vs[..n][..m]).waiting <= k {
        assert vs[..n][..m] == vs[..m];
      }
      RunHasFewTrips(engine, vs[..n], ticks[..n + 1], k);
      assert SeenAll(engine, vs[..n]).waiting <= k;
      ViewStaysFew(SeenAll(engine, vs[..n]), engine, k, vs[n], ticks[n], ticks[n + 1]);
    }
  }

  lemma NoTripsAreFew(engine: string, k: nat, t: real)
    ensures FewTrips(Overlap(Start().state, 0, []), engine, k, t)
  {
  }

  /** In any run in which at most `k` searches that found the engine closed are under way at once, each
      naming it once, the engine trips at most 6 + k times a UTC day. */
  lemma OverlapBound(engine: string, vs: seq<View>, ticks: seq<real>, k: nat, day: int)
    requires ViewsTimed(vs, ticks) && AtMostWaiting(engine, vs, k)
    ensures DatedTo(SeenAll(engine, vs).trips, day) <= 6 + k
  {
    RunHasFewTrips(engine, vs, ticks, k);
    hide SeenAll;
  }

  function Asks(k: nat, t: real): seq<View> { seq(k, _ => Asked(t)) }

  function Returns(k: nat, t: real): seq<View> { seq(k, _ => Returned(true, Clock(t, t))) }

  lemma SeenSnoc(engine: string, vs: seq<View>, v: View)
    ensures SeenAll(engine, vs + [v]) == Seen(SeenAll(engine, vs), engine, v)
  {
    hide Seen;
    assert (vs + [v])[..|vs|] == vs;
  }

  lemma {:induction false} AllAsk(engine: string, k: nat, t: real)
    requires t >= 0.0
    ensures SeenAll(engine, Asks(k, t)) == Overlap(Start().state, k, [])
  {
    if k > 0 {
      assert Asks(k, t) == Asks(k - 1, t) + [Asked(t)];
      AllAsk(engine, k - 1, t);
      SeenSnoc(engine, Asks(k - 1, t), Asked(t));
    }
  }

  lemma OneReturns(w: Overlap, engine: string, t: real)
    requires w.waiting > 0
    ensures var v := Seen(w, engine, Returned(true, Clock(t, t)));
            v.waiting == w.waiting - 1 && DatedTo(v.trips, Day(t)) == DatedTo(w.trips, Day(t)) + 1
  {
    hide Trip, Day;
    assert (w.trips + [Day(t)])[..|w.trips|] == w.trips;
  }

  lemma {:induction false} AllReturn(engine: string, k: nat, n: nat, t: real)
    requires t >= 0.0 && n <= k
    ensures var w := SeenAll(engine, Asks(k, t) + Returns(n, t));
            w.waiting == k - n && DatedTo(w.trips, Day(t)) == n
  {
    hide Seen, Asks, Day, SeenAll;
    if n == 0 {
      AllAsk(engine, k, t);
      assert Asks(k, t) + Returns(0, t) == Asks(k, t);
    } else {
      var before := Asks(k, t) + Returns(n - 1, t);
      assert Asks(k, t) + Returns(n, t) == before + [Returned(true, Clock(t, t))];
      hide Returns;
      AllReturn(engine, k, n - 1, t);
      SeenSnoc(engine, before, Returned(true, Clock(t, t)));
      OneReturns(SeenAll(engine, before), engine, t);
    }
  }

  /** Overlap does cost trips: `k` searches under way together trip the engine `k` times at one moment,
      all but the first during the cool-down of the first. */
  lemma OverlappingSearchesTripAgain(engine: string, k: nat, t: real)
    requires t >= 0.0
    ensures DatedTo(SeenAll(engine, Asks(k, t) + Returns(k, t)).trips, Day(t)) == k
    ensures IsOpen(Trip(Start().state, engine, Clock(t, t)), engine, t)
  {
    AllReturn(engine, k, k, t);
    Pow2Steps();
  }

  // ---------- the request spacer ----------

  /** One `acquire`: the clock on entry, and after the sleep if there is one. */
  datatype Turn = Turn(now: real, wake: real)

  datatype Spacer = Spacer(tokens: real, updated: real)

  function Held(rate: real, b: Spacer, now: real): real {
    var level := b.tokens + (now - b.updated) * rate;
    if level <= 1.0 then level else 1.0
  }

  predicate Sleeps(rate: real, b: Spacer, k: Turn) { Held(rate, b, k.now) < 1.0 }

  /** When the call is let through. */
  function GrantedAt(rate: real, b: Spacer, k: Turn): real {
    if Sleeps(rate, b, k) then k.wake else k.now
  }

  function Next(rate: real, b: Spacer, k: Turn): Spacer {
    if Sleeps(rate, b, k) then Spacer(0.0, k.wake) else Spacer(Held(rate, b, k.now) - 1.0, k.now)
  }

  /** How long the call asks to sleep. */
  function Wait(rate: real, b: Spacer, k: Turn): real
    requires rate > 0.0
  {
    if Sleeps(rate, b, k) then (1.0 - Held(rate, b, k.now)) / rate else 0.0
  }

  /** `asyncio.sleep` sleeps at least as long as it is asked to. */
  predicate Wakes(rate: real, b: Spacer, k: Turn)
    requires rate > 0.0
  {
    Sleeps(rate, b, k) ==> k.now + Wait(rate, b, k) <= k.wake
  }

  class TokenBucket {
    const rate: real
    const capacity: real
    var tokens: real
    var updated: real

    function Value(): Spacer
      reads this
    {
      Spacer(tokens, updated)
    }

    constructor (rate: real, now: real)
      ensures this.rate == rate && capacity == 1.0 && Value() == Spacer(1.0, now)
    {
      this.rate, capacity, tokens, updated := rate, 1.0, 1.0, now;
    }

    /** The lock makes calls take turns; `k.wake` is the clock after the sleep. */
    method Acquire(k: Turn) returns (asked: real, grantedAt: real)
      requires rate > 0.0 && capacity == 1.0 && Wakes(rate, Value(), k)
      modifies this
      ensures asked == Wait(rate, old(Value()), k) && grantedAt == GrantedAt(rate, old(Value()), k)
      ensures Value() == Next(rate, old(Value()), k)
    {
      var level := tokens + (k.now - updated) * rate;
      tokens := if level <= capacity then level else capacity;
      updated := k.now;
      if tokens < 1.0 {
        var wait := (1.0 - tokens) / rate;
        tokens := 0.0;
        updated := k.wake;
        return wait, k.wake;
      } else {
        tokens := tokens - 1.0;
        return 0.0, k.now;
      }
    }
  }

  function After(rate: real, b: Spacer, ks: seq<Turn>): Spacer {
    if ks == [] then b else Next(rate, After(rate, b, ks[..|ks| - 1]), ks[|ks| - 1])
  }

  /** Every call is let through, later than the one before by at least 1 / rate, sleeping or not. */
  lemma GrantsAreSpaced(rate: real, b: Spacer, ks: seq<Turn>, k: Turn)
    requires rate > 0.0 && ks != [] && b.tokens <= 1.0
    requires var last, before := ks[|ks| - 1], After(rate, b, ks[..|ks| - 1]);
             Wakes(rate, before, last) && GrantedAt(rate, before, last) <= k.now
    requires Wakes(rate, After(rate, b, ks), k)
    ensures var last, before := ks[|ks| - 1], After(rate, b, ks[..|ks| - 1]);
            GrantedAt(rate, before, last) + 1.0 / rate <= GrantedAt(rate, After(rate, b, ks), k)
  {
    var last, before := ks[|ks| - 1], After(rate, b, ks[..|ks| - 1]);
    var g, after := GrantedAt(rate, before, last), After(rate, b, ks);
    assert after == Spacer(0.0, g);
    SpacedStep(rate, g, k);
  }

  /** No call waits longer than it must: one that comes at least 1 / rate after the grant before it is let
      through at once, any other asks to sleep just until then. */
  lemma WaitsNoLonger(rate: real, b: Spacer, ks: seq<Turn>, k: Turn)
    requires rate > 0.0 && ks != [] && b.tokens <= 1.0
    requires GrantedAt(rate, After(rate, b, ks[..|ks| - 1]), ks[|ks| - 1]) <= k.now
    ensures var g := GrantedAt(rate, After(rate, b, ks[..|ks| - 1]), ks[|ks| - 1]);
            Wait(rate, After(rate, b, ks), k) == if k.now >= g + 1.0 / rate then 0.0 else g + 1.0 / rate - k.now
  {
    var g := GrantedAt(rate, After(rate, b, ks[..|ks| - 1]), ks[|ks| - 1]);
    assert After(rate, b, ks) == Spacer(0.0, g);
    WaitStep(rate, g, k);
  }

  lemma WaitStep(rate: real, g: real, k: Turn)
    requires rate > 0.0 && g <= k.now
    ensures Wait(rate, Spacer(0.0, g), k) == if k.now >= g + 1.0 / rate then 0.0 else g + 1.0 / rate - k.now
  {
    var x := (k.now - g) * rate;
    assert x / rate == k.now - g;
    if x < 1.0 {
      assert (1.0 - x) / rate == 1.0 / rate - x / rate;
      assert x / rate < 1.0 / rate;
    } else {
      assert x / rate >= 1.0 / rate;
    }
  }

  lemma SpacedStep(rate: real, g: real, k: Turn)
    requires rate > 0.0 && g <= k.now && Wakes(rate, Spacer(0.0, g), k)
    ensures g + 1.0 / rate <= GrantedAt(rate, Spacer(0.0, g), k)
  {
    var x := (k.now - g) * rate;
    assert x / rate == k.now - g;
    if x < 1.0 {
      assert (1.0 - x) / rate == 1.0 / rate - x / rate;
    } else {
      assert x / rate >= 1.0 / rate;
    }
  }
}
