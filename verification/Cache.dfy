/** The versioned, expiring disk cache, whose timed-out writes may still land later or never. */
module Cache {
  import opened Wrappers

  /** A stored value: a number, or other JSON. */
  datatype Value = Number(n: int) | Other(json: string)

  datatype Envelope = Envelope(version: int, value: Value, expiresAt: real)

  /** What the store holds for a key: an entry with the store's own expiry, or something foreign. */
  datatype Slot = Slot(envelope: Envelope, diskExpiry: real) | Foreign

  /** A write as handed to the worker thread; `stampedAt` is the reading its expiry counts from. */
  datatype Write = Write(key: string, envelope: Envelope, ttl: real, stampedAt: real)

  /** `int(value)`, which raises on JSON that is not a number. */
  type AsInt = string -> Option<int>

  function IntOf(asInt: AsInt, v: Value): Option<int> {
    match v case Number(n) => Some(n) case Other(json) => asInt(json)
  }

  // ---------- specification ----------

  type Store = map<string, Slot>

  /** The store's own lookup: expired entries are gone. */
  function DiskGet(s: Store, key: string, now: real): Option<Envelope> {
    if key in s && s[key].Slot? && now < s[key].diskExpiry then Some(s[key].envelope) else None
  }

  /** `get`, which looks up at `readAt` and checks the envelope at `now`. */
  function GetFrom(s: Store, version: int, key: string, readAt: real, now: real): Option<Value> {
    match DiskGet(s, key, readAt)
    case None => None
    case Some(e) => if e.version != version || e.expiresAt <= now then None else Some(e.value)
  }

  /** The entry an increment goes on counting from. */
  predicate Usable(s: Store, version: int, key: string, now: real) {
    var e := DiskGet(s, key, now);
    e.Some? && e.value.version == version
  }

  /** The new value, unless the stored one is not a number. */
  function Incremented(asInt: AsInt, s: Store, version: int, key: string, delta: int, now: real): Option<int> {
    if Usable(s, version, key, now) then
      match IntOf(asInt, DiskGet(s, key, now).value.value)
      case None => None
      case Some(n) => Some(n + delta)
    else Some(delta)
  }

  /** The write of a `set` that reads the clock at `now`. */
  function Stamped(version: int, key: string, value: Value, ttl: real, now: real): Write {
    Write(key, Envelope(version, value, now + ttl), ttl, now)
  }

  // ---------- the code ----------

  class DiskCacheBackend {
    const version: int
    const ttlDefault: real
    var store: Store

    constructor (version: int, ttlDefault: real, store: Store)
      ensures this.version == version && this.ttlDefault == ttlDefault && this.store == store
    {
      this.version, this.ttlDefault, this.store := version, ttlDefault, store;
    }

    method Get(key: string, readAt: real, now: real) returns (value: Option<Value>)
      ensures value == GetFrom(store, version, key, readAt, now)
    {
      if key !in store || store[key].Foreign? || store[key].diskExpiry <= readAt {
        return None;
      }
      var envelope := store[key].envelope;
      if envelope.version != version {
        return None;
      }
      if envelope.expiresAt <= now {
        return None;
      }
      return Some(envelope.value);
    }

    /** `set`, up to handing the write to its thread. */
    method Set(key: string, value: Value, ttl: Option<real>, now: real) returns (w: Write)
      ensures w == Stamped(version, key, value, if ttl.Some? then ttl.value else ttlDefault, now)
    {
      var t := if ttl.Some? then ttl.value else ttlDefault;
      var envelope := Envelope(version, value, now + t);
      w := Write(key, envelope, t, now);
    }

    /** The thread's side of `set`, whenever it gets to run. */
    method SyncSet(w: Write, now: real)
      modifies this
      ensures store == old(store)[w.key := Slot(w.envelope, now + w.ttl)]
    {
      store := store[w.key := Slot(w.envelope, now + w.ttl)];
    }

    method Delete(key: string)
      modifies this
      ensures store == old(store) - {key}
    {
      store := store - {key};
    }

    /** `_sync_incr`: one transaction that looks up at `readAt`, reads the clock for the expiry at
        `stampedAt` and writes at `setAt`; `None` if it raises. */
    method SyncIncr(asInt: AsInt, key: string, delta: int, ttl: real, readAt: real, stampedAt: real, setAt: real)
        returns (r: Option<int>)
      modifies this
      ensures r == Incremented(asInt, old(store), version, key, delta, readAt)
      ensures store == match r
                       case None => old(store)
                       case Some(n) =>
                         old(store)[key := Slot(Envelope(version, Number(n), stampedAt + ttl), setAt + ttl)]
    {
      var envelope := Envelope(version, Number(0), readAt + ttl);
      if key in store && store[key].Slot? && readAt < store[key].diskExpiry && store[key].envelope.version == version {
        envelope := store[key].envelope;
      }
      var current := IntOf(asInt, envelope.value);
      if current.None? {
        return None;
      }
      envelope := envelope.(value := Number(current.value + delta), expiresAt := stampedAt + ttl);
      store := store[key := Slot(envelope, setAt + ttl)];
      return Some(current.value + delta);
    }
  }

  // ---------- runs: writers of any version, late and lost writes ----------

  datatype Step =
    | Issue(key: string, version: int, value: Value, ttl: real, now: real)  // `set` hands a write over
    | Land(i: nat, now: real)                                               // a pending write reaches the store
    | Lose(i: nat)                                                          // a pending write fails
    | Incr(version: int, key: string, delta: int, ttl: real, readAt: real, stampedAt: real, setAt: real)
    | Remove(key: string)                                                   // delete, or eviction
    | Spoil(key: string)                                                    // something foreign is stored
    | Idle                                                                  // nothing that changes the cache

  /** What happened to a key in the store; `lag` is the time from the reading a write's expiry counts
      from to the write itself. */
  datatype Effect = Wrote(key: string, envelope: Envelope, lag: real) | Removed(key: string)

  datatype World = World(store: Store, pending: seq<Write>, issued: seq<Write>, effects: seq<Effect>)

  function Next(asInt: AsInt, w: World, s: Step): World {
    match s
    case Issue(key, version, value, ttl, now) =>
      var x := Stamped(version, key, value, ttl, now);
      w.(pending := w.pending + [x], issued := w.issued + [x])
    case Land(i, now) =>
      if i < |w.pending| then
        var x := w.pending[i];
        World(w.store[x.key := Slot(x.envelope, now + x.ttl)], w.pending[..i] + w.pending[i + 1..], w.issued,
              w.effects + [Wrote(x.key, x.envelope, now - x.stampedAt)])
      else w
    case Lose(i) => if i < |w.pending| then w.(pending := w.pending[..i] + w.pending[i + 1..]) else w
    case Incr(version, key, delta, ttl, readAt, stampedAt, setAt) =>
      (match Incremented(asInt, w.store, version, key, delta, readAt)
       case None => w
       case Some(n) =>
         var x := Stamped(version, key, Number(n), ttl, stampedAt);
         World(w.store[key := Slot(x.envelope, setAt + ttl)], w.pending, w.issued + [x],
               w.effects + [Wrote(key, x.envelope, setAt - stampedAt)]))
    case Remove(key) => w.(store := w.store - {key}, effects := w.effects + [Removed(key)])
    case Spoil(key) => w.(store := w.store[key := Foreign], effects := w.effects + [Removed(key)])
    case Idle => w
  }

  function Run(asInt: AsInt, steps: seq<Step>): World {
    if steps == [] then World(map[], [], [], [])
    else Next(asInt, Run(asInt, steps[..|steps| - 1]), steps[|steps| - 1])
  }

  /** The clock readings behind a step. */
  predicate TimedFrom(s: Step, from: real, to: real) {
    match s
    case Issue(_, _, _, _, now) => from <= now <= to
    case Land(_, now) => from <= now <= to
    case Incr(_, _, _, _, readAt, stampedAt, setAt) => from <= readAt <= stampedAt <= setAt <= to
    case _ => from <= to
  }

  /** A monotone clock: step `i` happens between `ticks[i]` and `ticks[i + 1]`. */
  ghost predicate Timed(steps: seq<Step>, ticks: seq<real>) {
    |ticks| == |steps| + 1 && forall i | 0 <= i < |steps| :: TimedFrom(steps[i], ticks[i], ticks[i + 1])
  }

  function LastEffect(es: seq<Effect>, key: string): Option<Effect> {
    if es == [] then None
    else if es[|es| - 1].key == key then Some(es[|es| - 1])
    else LastEffect(es[..|es| - 1], key)
  }

  lemma LastEffectSnoc(es: seq<Effect>, e: Effect, key: string)
    ensures LastEffect(es + [e], key) == if e.key == key then Some(e) else LastEffect(es, key)
  {
    assert (es + [e])[..|es|] == es;
  }

  /** The store shows the last effect on the key, every effect was issued, and the store keeps an entry
      past its envelope's expiry by exactly the write's lag. */
  ghost predicate Consistent(w: World, key: string, t: real) {
    && (match LastEffect(w.effects, key)
        case Some(Wrote(_, e, lag)) =>
          && key in w.store && w.store[key].Slot? && w.store[key].envelope == e
          && lag >= 0.0 && w.store[key].diskExpiry == e.expiresAt + lag
          && exists x | x in w.issued :: x.key == key && x.envelope == e
        case _ => key !in w.store || w.store[key].Foreign?)
    && (forall x | x in w.pending :: x in w.issued && x.stampedAt <= t && x.envelope.expiresAt == x.stampedAt + x.ttl)
  }

  lemma LandStaysConsistent(asInt: AsInt, w: World, i: nat, now: real, key: string, from: real, to: real)
    requires Consistent(w, key, from) && from <= now <= to && i < |w.pending|
    ensures Consistent(Next(asInt, w, Land(i, now)), key, to)
  {
    hide LastEffect;
    var x := w.pending[i];
    assert x in w.pending;
    LastEffectSnoc(w.effects, Wrote(x.key, x.envelope, now - x.stampedAt), key);
  }

  lemma IncrStaysConsistent(asInt: AsInt, w: World, s: Step, key: string, from: real, to: real)
    requires s.Incr? && Consistent(w, key, from) && TimedFrom(s, from, to)
    ensures Consistent(Next(asInt, w, s), key, to)
  {
    hide LastEffect, Incremented;
    var v := Next(asInt, w, s);
    if v != w {
      var n := Incremented(asInt, w.store, s.version, s.key, s.delta, s.readAt).value;
      var x := Stamped(s.version, s.key, Number(n), s.ttl, s.stampedAt);
      LastEffectSnoc(w.effects, Wrote(s.key, x.envelope, s.setAt - s.stampedAt), key);
      assert x in v.issued;
    }
  }

  lemma StepStaysConsistent(asInt: AsInt, w: World, s: Step, key: string, from: real, to: real)
    requires Consistent(w, key, from) && TimedFrom(s, from, to)
    ensures Consistent(Next(asInt, w, s), key, to)
  {
    hide LastEffect, Incremented;
    match s {
      case Land(i, now) =>
        if i < |w.pending| {
          LandStaysConsistent(asInt, w, i, now, key, from, to);
        }
      case Incr(_, _, _, _, _, _, _) => IncrStaysConsistent(asInt, w, s, key, from, to);
      case Remove(k) => LastEffectSnoc(w.effects, Removed(k), key);
      case Spoil(k) => LastEffectSnoc(w.effects, Removed(k), key);
      case _ =>
    }
  }

  lemma {:induction false} RunStaysConsistent(asInt: AsInt, steps: seq<Step>, ticks: seq<real>, key: string)
    requires Timed(steps, ticks)
    ensures Consistent(Run(asInt, steps), key, ticks[|steps|])
  {
    hide Next, Consistent, TimedFrom;
    if steps == [] {
      EmptyIsConsistent(key, ticks[0]);
    } else {
      var n := |steps| - 1;
      RunStaysConsistent(asInt, steps[..n], ticks[..n + 1], key);
      StepStaysConsistent(asInt, Run(asInt, steps[..n]), steps[n], key, ticks[n], ticks[n + 1]);
    }
  }

  lemma EmptyIsConsistent(key: string, t: real)
    ensures Consistent(World(map[], [], [], []), key, t)
  {
  }

  /** After any run, `get` hits iff the last thing that happened to the key in the store is a write of
      this version whose envelope has not expired, and then returns what was written: the store's own
      expiry never loses a live entry, and late, lost and foreign writes never show anything else. */
  lemma GetShowsLastWrite(asInt: AsInt, steps: seq<Step>, ticks: seq<real>, version: int, key: string,
                          readAt: real, now: real, v: Value)
    requires Timed(steps, ticks) && readAt <= now
    ensures GetFrom(Run(asInt, steps).store, version, key, readAt, now) == Some(v)
            <==> exists e, lag :: LastEffect(Run(asInt, steps).effects, key) == Some(Wrote(key, e, lag))
                                  && e.version == version && now < e.expiresAt && e.value == v
  {
    RunStaysConsistent(asInt, steps, ticks, key);
    var w := Run(asInt, steps);
    LastEffectKey(w.effects, key);
    hide Run, LastEffect;
  }

  /** Increments and `get` disagree about expiry by the lag of a write. After any run, an increment at
      `now` counts on from an entry that `get` already treats as expired iff the last thing that
      happened to the key is a write of this version, and `now` is within its lag of its expiry. */
  lemma IncrOutlivesGetIff(asInt: AsInt, steps: seq<Step>, ticks: seq<real>, version: int, key: string, now: real)
    requires Timed(steps, ticks)
    ensures var w := Run(asInt, steps);
            Usable(w.store, version, key, now) && GetFrom(w.store, version, key, now, now) == None
            <==> exists e, lag :: LastEffect(w.effects, key) == Some(Wrote(key, e, lag))
                                  && e.version == version && e.expiresAt <= now < e.expiresAt + lag
  {
    RunStaysConsistent(asInt, steps, ticks, key);
    var w := Run(asInt, steps);
    LastEffectKey(w.effects, key);
    hide Run, LastEffect;
  }

  lemma {:induction false} LastEffectKey(es: seq<Effect>, key: string)
    ensures LastEffect(es, key).Some? ==> LastEffect(es, key).value.key == key
  {
    if es != [] {
      LastEffectKey(es[..|es| - 1], key);
    }
  }

  /** A hit is a value that some `set` or `incr` issued for this key at this version, and that has not
      expired. */
  lemma HitWasWritten(asInt: AsInt, steps: seq<Step>, ticks: seq<real>, version: int, key: string,
                      readAt: real, now: real)
    requires Timed(steps, ticks) && GetFrom(Run(asInt, steps).store, version, key, readAt, now).Some?
    ensures exists x | x in Run(asInt, steps).issued ::
              && x.key == key && x.envelope.version == version && now < x.envelope.expiresAt
              && x.envelope.value == GetFrom(Run(asInt, steps).store, version, key, readAt, now).value
  {
    RunStaysConsistent(asInt, steps, ticks, key);
    var w := Run(asInt, steps);
    LastEffectKey(w.effects, key);
    hide Run, LastEffect;
  }

  // ---------- counters ----------

  predicate SetsKey(s: Step, key: string) { s.Issue? && s.key == key }

  predicate IncrsKey(s: Step, key: string) { s.Incr? && s.key == key }

  function SumOfDeltas(steps: seq<Step>, key: string): int {
    if steps == [] then 0
    else
      var s := steps[|steps| - 1];
      SumOfDeltas(steps[..|steps| - 1], key) + if IncrsKey(s, key) then s.delta else 0
  }

  /** The increment finds nothing to count from: the entry is absent, expired in the store, or of
      another version. */
  ghost predicate StartsOver(asInt: AsInt, steps: seq<Step>, i: nat, key: string)
    requires i < |steps|
  {
    IncrsKey(steps[i], key) && !Usable(Run(asInt, steps[..i]).store, steps[i].version, key, steps[i].readAt)
  }

  /** Whether the store's number for the key is the sum of the increments since step `i`. */
  ghost predicate CountsSince(asInt: AsInt, steps: seq<Step>, key: string, i: nat)
  {
    var w := Run(asInt, steps);
    && i < |steps| && StartsOver(asInt, steps, i, key)
    && (forall j | i < j < |steps| :: !StartsOver(asInt, steps, j, key))
    && key in w.store && w.store[key].Slot? && w.store[key].envelope.value == Number(SumOfDeltas(steps[i..], key))
  }

  lemma {:induction false} PendingNeverSets(asInt: AsInt, steps: seq<Step>, key: string)
    requires forall s | s in steps :: !SetsKey(s, key)
    ensures forall x | x in Run(asInt, steps).pending :: x.key != key
  {
    hide Incremented;
    if steps != [] {
      var n := |steps| - 1;
      PendingNeverSets(asInt, steps[..n], key);
      assert steps[n] in steps;
    }
  }

  lemma StartsOverPrefix(asInt: AsInt, steps: seq<Step>, n: nat, i: nat, key: string)
    requires i < n <= |steps|
    ensures StartsOver(asInt, steps[..n], i, key) <==> StartsOver(asInt, steps, i, key)
  {
    assert steps[..n][..i] == steps[..i];
  }

  lemma SumSnoc(steps: seq<Step>, i: nat, key: string)
    requires i < |steps|
    ensures var n := |steps| - 1;
            SumOfDeltas(steps[i..], key)
            == SumOfDeltas(steps[..n][i..], key) + if IncrsKey(steps[n], key) then steps[n].delta else 0
  {
    assert steps[i..][..|steps| - 1 - i] == steps[..|steps| - 1][i..];
  }

  /** Steps that touch other keys, or only the pending writes, leave the key's slot alone. */
  lemma SlotKept(asInt: AsInt, w: World, s: Step, key: string)
    requires !IncrsKey(s, key) && s != Remove(key) && s != Spoil(key) && forall x | x in w.pending :: x.key != key
    ensures var v := Next(asInt, w, s);
            (key in v.store <==> key in w.store) && (key in w.store ==> v.store[key] == w.store[key])
  {
    hide Incremented;
    if s.Land? && s.i < |w.pending| {
      assert w.pending[s.i] in w.pending;
    }
  }

  /** An increment starts from zero, or adds to the number it finds. */
  lemma IncrAdds(asInt: AsInt, w: World, s: Step, key: string)
    requires IncrsKey(s, key)
    ensures var v := Next(asInt, w, s);
            if !Usable(w.store, s.version, key, s.readAt) then
              key in v.store && v.store[key].Slot? && v.store[key].envelope.value == Number(s.delta)
            else
              key in w.store && w.store[key].Slot?
              && (w.store[key].envelope.value.Number? ==>
                    key in v.store && v.store[key].Slot?
                    && v.store[key].envelope.value == Number(w.store[key].envelope.value.n + s.delta))
  {
  }

  lemma RunSnoc(asInt: AsInt, before: seq<Step>, s: Step)
    ensures Run(asInt, before + [s]) == Next(asInt, Run(asInt, before), s)
  {
    assert (before + [s])[..|before|] == before;
  }

  lemma StartsCounting(asInt: AsInt, before: seq<Step>, s: Step, key: string)
    requires StartsOver(asInt, before + [s], |before|, key)
    ensures CountsSince(asInt, before + [s], key, |before|)
  {
    var n := |before|;
    assert (before + [s])[..n] == before && (before + [s])[n..] == [s] && [s][..0] == [];
    assert SumOfDeltas([s], key) == s.delta;
    RunSnoc(asInt, before, s);
    IncrAdds(asInt, Run(asInt, before), s, key);
    hide Run, Next, Usable;
  }

  /** The number in the slot moves by the step's increment. */
  lemma NumberMoves(asInt: AsInt, w: World, s: Step, key: string, m: int)
    requires key in w.store && w.store[key].Slot? && w.store[key].envelope.value == Number(m)
    requires IncrsKey(s, key) ==> Usable(w.store, s.version, key, s.readAt)
    requires forall x | x in w.pending :: x.key != key
    requires s != Remove(key) && s != Spoil(key)
    ensures var v := Next(asInt, w, s);
            key in v.store && v.store[key].Slot?
            && v.store[key].envelope.value == Number(m + if IncrsKey(s, key) then s.delta else 0)
  {
    hide Next, Usable;
    if IncrsKey(s, key) {
      IncrAdds(asInt, w, s, key);
    } else {
      SlotKept(asInt, w, s, key);
    }
  }

  lemma NoLaterStart(asInt: AsInt, before: seq<Step>, s: Step, key: string, i: nat)
    requires i < |before| && StartsOver(asInt, before, i, key) && !StartsOver(asInt, before + [s], |before|, key)
    requires forall j | i < j < |before| :: !StartsOver(asInt, before, j, key)
    ensures StartsOver(asInt, before + [s], i, key)
    ensures forall j | i < j < |before| + 1 :: !StartsOver(asInt, before + [s], j, key)
  {
    hide StartsOver;
    var n, steps := |before|, before + [s];
    assert steps[..n] == before;
    StartsOverPrefix(asInt, steps, n, i, key);
    forall j | i < j < n + 1 ensures !StartsOver(asInt, steps, j, key) {
      if j < n {
        StartsOverPrefix(asInt, steps, n, j, key);
      }
    }
  }

  lemma SlotGoesOnCounting(asInt: AsInt, before: seq<Step>, s: Step, key: string, sum: int)
    requires !StartsOver(asInt, before + [s], |before|, key)
    requires forall x | x in Run(asInt, before).pending :: x.key != key
    requires s != Remove(key) && s != Spoil(key)
    requires var w := Run(asInt, before);
             key in w.store && w.store[key].Slot? && w.store[key].envelope.value == Number(sum)
    ensures var v := Run(asInt, before + [s]);
            key in v.store && v.store[key].Slot?
            && v.store[key].envelope.value == Number(sum + if IncrsKey(s, key) then s.delta else 0)
  {
    assert (before + [s])[..|before|] == before;
    RunSnoc(asInt, before, s);
    hide Next, Usable, Run;
    NumberMoves(asInt, Run(asInt, before), s, key, sum);
  }

  lemma GoesOnCounting(asInt: AsInt, before: seq<Step>, s: Step, key: string, i: nat)
    requires CountsSince(asInt, before, key, i) && !StartsOver(asInt, before + [s], |before|, key)
    requires forall x | x in Run(asInt, before).pending :: x.key != key
    requires s != Remove(key) && s != Spoil(key)
    ensures CountsSince(asInt, before + [s], key, i)
  {
    hide Run, SumOfDeltas, StartsOver, IncrsKey;
    assert (before + [s])[..|before|] == before;
    SumSnoc(before + [s], i, key);
    SlotGoesOnCounting(asInt, before, s, key, SumOfDeltas(before[i..], key));
    NoLaterStart(asInt, before, s, key, i);
  }

  /** For a key that is never `set`, whatever its slot holds is the sum of the increments since the
      last one that started over. */
  lemma {:induction false} CounterHoldsSum(asInt: AsInt, steps: seq<Step>, key: string)
    requires forall s | s in steps :: !SetsKey(s, key)
    ensures var w := Run(asInt, steps);
            key in w.store && w.store[key].Slot? ==> exists i :: CountsSince(asInt, steps, key, i)
  {
    if steps != [] {
      var n := |steps| - 1;
      var before, s := steps[..n], steps[n];
      assert steps == before + [s];
      CounterHoldsSum(asInt, before, key);
      PendingNeverSets(asInt, before, key);
      CounterStep(asInt, before, s, key);
    }
  }

  lemma CounterStep(asInt: AsInt, before: seq<Step>, s: Step, key: string)
    requires forall x | x in Run(asInt, before).pending :: x.key != key
    requires var w := Run(asInt, before);
             key in w.store && w.store[key].Slot? ==> exists i :: CountsSince(asInt, before, key, i)
    ensures var v := Run(asInt, before + [s]);
            key in v.store && v.store[key].Slot? ==> exists i :: CountsSince(asInt, before + [s], key, i)
  {
    hide Run, Next, CountsSince, Usable;
    var w, v := Run(asInt, before), Run(asInt, before + [s]);
    RunSnoc(asInt, before, s);
    if key in v.store && v.store[key].Slot? {
      if StartsOver(asInt, before + [s], |before|, key) {
        StartsCounting(asInt, before, s, key);
      } else {
        KeptOrCounted(asInt, before, s, key);
        var i :| CountsSince(asInt, before, key, i);
        GoesOnCounting(asInt, before, s, key, i);
      }
    }
  }

  /** A step that leaves a key's slot holding an entry, without starting over, found one there. */
  lemma KeptOrCounted(asInt: AsInt, before: seq<Step>, s: Step, key: string)
    requires var w := Run(asInt, before); forall x | x in w.pending :: x.key != key
    requires var v := Run(asInt, before + [s]); key in v.store && v.store[key].Slot?
    requires !StartsOver(asInt, before + [s], |before|, key)
    ensures var w := Run(asInt, before); key in w.store && w.store[key].Slot?
    ensures s != Remove(key) && s != Spoil(key)
  {
    var w := Run(asInt, before);
    assert (before + [s])[..|before|] == before;
    RunSnoc(asInt, before, s);
    hide Run;
    if IncrsKey(s, key) {
      IncrAdds(asInt, w, s, key);
    } else if s != Remove(key) && s != Spoil(key) {
      SlotKept(asInt, w, s, key);
    }
  }

  /** An increment of a key that is never `set` always succeeds, and returns the sum of the increments
      since the last one, this one included, that found the entry absent, expired in the store, or of
      another version. */
  lemma IncrReturnsSum(asInt: AsInt, steps: seq<Step>, key: string)
    requires steps != [] && IncrsKey(steps[|steps| - 1], key) && forall s | s in steps :: !SetsKey(s, key)
    ensures var n := |steps| - 1;
            var s := steps[n];
            exists i | 0 <= i <= n ::
              && StartsOver(asInt, steps, i, key) && (forall j | i < j <= n :: !StartsOver(asInt, steps, j, key))
              && Incremented(asInt, Run(asInt, steps[..n]).store, s.version, key, s.delta, s.readAt)
                 == Some(SumOfDeltas(steps[i..], key))
  {
    var n := |steps| - 1;
    var before, s := steps[..n], steps[n];
    var w := Run(asInt, before);
    CounterHoldsSum(asInt, before, key);
    var r := Incremented(asInt, w.store, s.version, key, s.delta, s.readAt);
    if Usable(w.store, s.version, key, s.readAt) {
      var i :| CountsSince(asInt, before, key, i);
      assert r.Some?;
    }
    CounterHoldsSum(asInt, steps, key);
    assert Run(asInt, steps).store[key].envelope.value == Number(r.value);
    var i :| CountsSince(asInt, steps, key, i);
  }

  /** The disagreement is real: whenever the clock moves on between the reading for the expiry and the
      write, the next increment can count on from what `get` calls expired. */
  lemma IncrIgnoresEnvelopeExpiry(asInt: AsInt, version: int, key: string, t: real, gap: real, ttl: real)
    requires gap > 0.0
    ensures var w := Run(asInt, [Incr(version, key, 1, ttl, t, t, t + gap)]);
            && GetFrom(w.store, version, key, t + ttl, t + ttl) == None
            && Incremented(asInt, w.store, version, key, 1, t + ttl) == Some(2)
  {
    var s := Incr(version, key, 1, ttl, t, t, t + gap);
    assert [s][..0] == [];
    assert Run(asInt, []) == World(map[], [], [], []);
    var w := Run(asInt, [s]);
    assert w == Next(asInt, Run(asInt, []), s);
    assert w.store[key] == Slot(Envelope(version, Number(1), t + ttl), t + gap + ttl);
  }
}
