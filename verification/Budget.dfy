/** The LLM gateway's daily budget: the spend table, one completion from check to charge, and the
    interleavings of many, since calls are suspended between the check and the charge. */
module Budget {
  import opened Wrappers

  /** A row of the table: a UTC date and a role. */
  type Key = (int, string)

  function SpendOf(t: map<Key, real>, day: int, role: string): real {
    if (day, role) in t then t[(day, role)] else 0.0
  }

  function Added(t: map<Key, real>, day: int, role: string, cost: real): map<Key, real> {
    t[(day, role) := SpendOf(t, day, role) + cost]
  }

  class DailyBudgetStore {
    var table: map<Key, real>

    constructor ()
      ensures table == map[]
    {
      table := map[];
    }

    method GetSpend(role: string, today: int) returns (spend: real)
      ensures spend == SpendOf(table, today, role)
    {
      spend := if (today, role) in table then table[(today, role)] else 0.0;
    }

    /** Insert the row, or add to it. */
    method AddSpend(role: string, cost: real, today: int) returns (total: real)
      modifies this
      ensures table == Added(old(table), today, role, cost)
      ensures total == SpendOf(table, today, role)
    {
      if (today, role) in table {
        table := table[(today, role) := table[(today, role)] + cost];
      } else {
        table := table[(today, role) := cost];
      }
      total := table[(today, role)];
    }
  }

  // ---------- one completion ----------

  /** What the backend does with a request: it raises, answers with a stream, or responds. */
  datatype Reply = Raises | Streams | Responds(cost: real, malformed: bool)

  /** One provider's turn: the first reply, the reply to a repair request should one be made, the date
      of the charge, and whether the bookkeeping after the charge raises. */
  datatype Attempt = Attempt(first: Reply, repair: Reply, day: int, bookkeepingRaises: bool)

  datatype Outcome = ToolsDisabled | BudgetExceeded | InputTooLarge | Unavailable | Completed(index: nat, cost: real)

  /** The cost of the response an attempt ends with: the repaired one if the first had a malformed
      tool call, whether or not the repaired one is malformed as well. */
  function FinalCost(a: Attempt): Option<real> {
    match a.first
    case Responds(cost, malformed) =>
      if !malformed then Some(cost)
      else if a.repair.Responds? then Some(a.repair.cost) else None
    case _ => None
  }

  /** What is charged is the cost of the last response: the first, if it needs no repair, else the repaired
      one; nothing, if either is no response. */
  lemma FinalCostIff(a: Attempt, cost: real)
    ensures FinalCost(a) == Some(cost)
            <==> || a.first == Responds(cost, false)
                 || (a.first.Responds? && a.first.malformed && a.repair.Responds? && a.repair.cost == cost)
  {
  }

  datatype Ledger = Ledger(table: map<Key, real>, outcome: Outcome)

  /** The table and the outcome after trying the providers from `i` on. */
  function TryFrom(t: map<Key, real>, role: string, attempts: seq<Attempt>, i: nat): Ledger
    requires i <= |attempts|
    decreases |attempts| - i
  {
    if i == |attempts| then Ledger(t, Unavailable)
    else
      match FinalCost(attempts[i])
      case None => TryFrom(t, role, attempts, i + 1)
      case Some(cost) =>
        var t' := Added(t, attempts[i].day, role, cost);
        if attempts[i].bookkeepingRaises then TryFrom(t', role, attempts, i + 1)
        else Ledger(t', Completed(i, cost))
  }

  /** `complete`: the checks in their order, then the providers in turn. */
  method Complete(store: DailyBudgetStore, role: string, withTools: bool, today: int, budget: real,
                  inputTokens: nat, maxInputTokens: nat, attempts: seq<Attempt>)
    returns (outcome: Outcome)
    modifies store
    ensures if role == "synthesis" && withTools then outcome == ToolsDisabled && store.table == old(store.table)
            else if SpendOf(old(store.table), today, role) >= budget then
              outcome == BudgetExceeded && store.table == old(store.table)
            else if inputTokens > maxInputTokens then outcome == InputTooLarge && store.table == old(store.table)
            else Ledger(store.table, outcome) == TryFrom(old(store.table), role, attempts, 0)
  {
    if role == "synthesis" && withTools {
      return ToolsDisabled;
    }
    var spend := store.GetSpend(role, today);
    if spend >= budget {
      return BudgetExceeded;
    }
    if inputTokens > maxInputTokens {
      return InputTooLarge;
    }
    ghost var t0 := store.table;
    for i := 0 to |attempts|
      invariant TryFrom(store.table, role, attempts, i) == TryFrom(t0, role, attempts, 0)
    {
      var a := attempts[i];
      var response := a.first;
      if response.Responds? && response.malformed {
        response := a.repair;
      }
      if response.Responds? {
        var _ := store.AddSpend(role, response.cost, a.day);
        if !a.bookkeepingRaises {
          return Completed(i, response.cost);
        }
      }
    }
    return Unavailable;
  }

  /** If the bookkeeping does not raise, a completion charges exactly one amount: the cost of the
      response it returns, to the date of that provider's turn; one that finds no provider charges
      nothing. */
  lemma {:induction false} ChargesWhatItReturns(t: map<Key, real>, role: string, attempts: seq<Attempt>, i: nat)
    requires i <= |attempts| && forall k | i <= k < |attempts| :: !attempts[k].bookkeepingRaises
    ensures var r := TryFrom(t, role, attempts, i);
            match r.outcome
            case Completed(n, cost) =>
              && i <= n < |attempts| && FinalCost(attempts[n]) == Some(cost)
              && (forall k | i <= k < n :: FinalCost(attempts[k]) == None)
              && r.table == Added(t, attempts[n].day, role, cost)
            case o =>
              o == Unavailable && r.table == t && forall k | i <= k < |attempts| :: FinalCost(attempts[k]) == None
    decreases |attempts| - i
  {
    if i < |attempts| && FinalCost(attempts[i]) == None {
      ChargesWhatItReturns(t, role, attempts, i + 1);
    }
  }

  /** The costs of the responses that the providers `i` to `j` end with on a day. */
  function Charged(attempts: seq<Attempt>, i: nat, j: nat, day: int): real
    requires i <= j <= |attempts|
    decreases j - i
  {
    if i == j then 0.0
    else
      var a := attempts[i];
      (if FinalCost(a).Some? && a.day == day then FinalCost(a).value else 0.0) + Charged(attempts, i + 1, j, day)
  }

  /** The provider after the last one tried. */
  function Stop(r: Ledger, attempts: seq<Attempt>): nat {
    if r.outcome.Completed? then r.outcome.index + 1 else |attempts|
  }

  /** Whatever the bookkeeping does, a completion charges every response that any provider it tries ends
      with, to that provider's date and to the role, and nothing else. */
  lemma {:induction false} ChargesEveryResponse(t: map<Key, real>, role: string, attempts: seq<Attempt>, i: nat,
                                               day: int, other: string)
    requires i <= |attempts|
    ensures var r := TryFrom(t, role, attempts, i);
            && (r.outcome == Unavailable
                || (r.outcome.Completed? && i <= r.outcome.index < |attempts|
                    && FinalCost(attempts[r.outcome.index]) == Some(r.outcome.cost)))
            && SpendOf(r.table, day, other)
               == SpendOf(t, day, other) + if other == role then Charged(attempts, i, Stop(r, attempts), day) else 0.0
    decreases |attempts| - i
  {
    if i < |attempts| {
      match FinalCost(attempts[i]) {
        case None => ChargesEveryResponse(t, role, attempts, i + 1, day, other);
        case Some(cost) =>
          var t' := Added(t, attempts[i].day, role, cost);
          if attempts[i].bookkeepingRaises {
            ChargesEveryResponse(t', role, attempts, i + 1, day, other);
          }
      }
    }
  }

  ghost predicate PositiveCosts(attempts: seq<Attempt>) {
    forall a | a in attempts && FinalCost(a).Some? :: FinalCost(a).value > 0.0
  }

  lemma {:induction false} ChargedPositive(attempts: seq<Attempt>, i: nat, j: nat, k: nat, day: int)
    requires PositiveCosts(attempts) && i <= j <= |attempts|
    ensures Charged(attempts, i, j, day) >= 0.0
    ensures i <= k < j && FinalCost(attempts[k]).Some? && attempts[k].day == day ==> Charged(attempts, i, j, day) > 0.0
    decreases j - i
  {
    hide FinalCost;
    if i < j {
      assert attempts[i] in attempts;
      ChargedPositive(attempts, i + 1, j, k, day);
    }
  }

  lemma {:induction false} ChargedSplit(attempts: seq<Attempt>, i: nat, j: nat, day: int)
    requires i <= j < |attempts|
    ensures Charged(attempts, i, j + 1, day) == Charged(attempts, i, j, day) + Charged(attempts, j, j + 1, day)
    decreases j - i
  {
    hide FinalCost;
    if i < j {
      ChargedSplit(attempts, i + 1, j, day);
    }
  }

  /** Without a response before provider `n`, the providers before it are passed over. */
  lemma {:induction false} SkipsSilent(t: map<Key, real>, role: string, attempts: seq<Attempt>, i: nat, n: nat)
    requires i <= n <= |attempts| && forall k | i <= k < n :: FinalCost(attempts[k]) == None
    ensures TryFrom(t, role, attempts, i) == TryFrom(t, role, attempts, n)
    decreases n - i
  {
    hide FinalCost;
    if i < n {
      SkipsSilent(t, role, attempts, i + 1, n);
    }
  }

  /** With positive costs, a completion charges exactly the cost of the response it returns iff no
      provider before it ended with a response of its own, whose bookkeeping then raised; and one that
      finds no provider leaves the table alone iff none ended with a response at all. */
  lemma ChargesOnlyWhatItReturnsIff(t: map<Key, real>, role: string, attempts: seq<Attempt>, i: nat)
    requires i <= |attempts| && PositiveCosts(attempts)
    ensures var r := TryFrom(t, role, attempts, i);
            match r.outcome
            case Completed(n, cost) =>
              && i <= n < |attempts|
              && (r.table == Added(t, attempts[n].day, role, cost)
                  <==> forall k | i <= k < n :: FinalCost(attempts[k]) == None)
            case o =>
              && o == Unavailable
              && (r.table == t <==> forall k | i <= k < |attempts| :: FinalCost(attempts[k]) == None)
  {
    hide FinalCost, TryFrom, Charged;
    var r := TryFrom(t, role, attempts, i);
    ChargesEveryResponse(t, role, attempts, i, 0, role);
    var n := if r.outcome.Completed? then r.outcome.index else |attempts|;
    if forall k | i <= k < n :: FinalCost(attempts[k]) == None {
      SkipsSilent(t, role, attempts, i, n);
      TryAt(t, role, attempts, n);
    } else {
      var k :| i <= k < n && FinalCost(attempts[k]).Some?;
      var day := attempts[k].day;
      ChargesEveryResponse(t, role, attempts, i, day, role);
      ChargedPositive(attempts, i, n, k, day);
      if r.outcome.Completed? {
        ChargedSplit(attempts, i, n, day);
        ChargedOne(attempts, n, day);
      }
    }
  }

  lemma TryAt(t: map<Key, real>, role: string, attempts: seq<Attempt>, n: nat)
    requires n <= |attempts|
    ensures n == |attempts| ==> TryFrom(t, role, attempts, n) == Ledger(t, Unavailable)
    ensures TryFrom(t, role, attempts, n).outcome.Completed? && TryFrom(t, role, attempts, n).outcome.index == n ==>
              TryFrom(t, role, attempts, n).table
              == Added(t, attempts[n].day, role, TryFrom(t, role, attempts, n).outcome.cost)
  {
    hide FinalCost;
    if n < |attempts| && FinalCost(attempts[n]).Some? {
      var t' := Added(t, attempts[n].day, role, FinalCost(attempts[n]).value);
      ChargesEveryResponse(t', role, attempts, n + 1, 0, role);
    } else if n < |attempts| {
      ChargesEveryResponse(t, role, attempts, n + 1, 0, role);
    }
  }

  lemma ChargedOne(attempts: seq<Attempt>, n: nat, day: int)
    requires n < |attempts|
    ensures Charged(attempts, n, n + 1, day)
            == if FinalCost(attempts[n]).Some? && attempts[n].day == day then FinalCost(attempts[n]).value else 0.0
  {
    hide FinalCost;
    assert Charged(attempts, n + 1, n + 1, day) == 0.0;
  }

  /** Two providers are enough for the exception: a charge whose bookkeeping raises stays, and the next
      provider's is added to it, although only one response is returned. */
  lemma RaisingBookkeepingChargesTwice(t: map<Key, real>, role: string, day: int, x: real, y: real)
    ensures var attempts := [Attempt(Responds(x, false), Raises, day, true),
                             Attempt(Responds(y, false), Raises, day, false)];
            var r := TryFrom(t, role, attempts, 0);
            r.outcome == Completed(1, y) && SpendOf(r.table, day, role) == SpendOf(t, day, role) + x + y
  {
    var attempts := [Attempt(Responds(x, false), Raises, day, true), Attempt(Responds(y, false), Raises, day, false)];
    var t' := Added(t, day, role, x);
    assert TryFrom(t', role, attempts, 1) == Ledger(Added(t', day, role, y), Completed(1, y));
  }

  // ---------- many completions, interleaved ----------

  /** A completion past its budget check, with the providers it may still try. */
  datatype Call = Call(role: string, left: nat)

  datatype Charge = Charge(day: int, role: string, cost: real)

  datatype World = World(table: map<Key, real>, calls: seq<Call>, today: int, log: seq<Charge>)

  datatype Step =
    | Begin(role: string, providers: nat)       // the budget check
    | Fail(i: nat)                              // a provider's turn ends without a charge
    | Pay(i: nat, cost: real, raises: bool)     // a provider's turn ends with one
    | Abort(i: nat)                             // the caller gives up waiting
    | Midnight(day: int)

  function Without(calls: seq<Call>, i: nat): seq<Call>
    requires i < |calls|
  {
    calls[..i] + calls[i + 1..]
  }

  /** The call moves on to its next provider, or ends when it has none. */
  function TurnOver(calls: seq<Call>, i: nat): seq<Call>
    requires i < |calls|
  {
    if calls[i].left <= 1 then Without(calls, i) else calls[i := calls[i].(left := calls[i].left - 1)]
  }

  /** One step of one call; a step that is not enabled changes nothing. */
  function Next(w: World, s: Step, budget: real): World {
    match s
    case Begin(role, providers) =>
      if SpendOf(w.table, w.today, role) < budget && providers > 0 then
        w.(calls := w.calls + [Call(role, providers)])
      else w
    case Fail(i) => if i < |w.calls| then w.(calls := TurnOver(w.calls, i)) else w
    case Pay(i, cost, raises) =>
      if i < |w.calls| then
        var role := w.calls[i].role;
        World(Added(w.table, w.today, role, cost),
              if raises then TurnOver(w.calls, i) else Without(w.calls, i),
              w.today, w.log + [Charge(w.today, role, cost)])
      else w
    case Abort(i) => if i < |w.calls| then w.(calls := Without(w.calls, i)) else w
    case Midnight(day) => if day > w.today then w.(today := day) else w
  }

  function Run(steps: seq<Step>, budget: real, day0: int): World {
    if steps == [] then World(map[], [], day0, [])
    else Next(Run(steps[..|steps| - 1], budget, day0), steps[|steps| - 1], budget)
  }

  function SumOf(log: seq<Charge>, day: int, role: string): real {
    if log == [] then 0.0
    else
      var c := log[|log| - 1];
      SumOf(log[..|log| - 1], day, role) + if c.day == day && c.role == role then c.cost else 0.0
  }

  /** The table holds, for every date and role, the sum of the costs charged to it. */
  lemma {:induction false} TableIsSumOfCharges(steps: seq<Step>, budget: real, day0: int, day: int, role: string)
    ensures var w := Run(steps, budget, day0); SpendOf(w.table, day, role) == SumOf(w.log, day, role)
  {
    if steps != [] {
      var w, s := Run(steps[..|steps| - 1], budget, day0), steps[|steps| - 1];
      TableIsSumOfCharges(steps[..|steps| - 1], budget, day0, day, role);
      if s.Pay? && s.i < |w.calls| {
        var c := Charge(w.today, w.calls[s.i].role, s.cost);
        assert (w.log + [c])[..|w.log|] == w.log;
      }
    }
  }

  /** How often the call may still charge: once, unless bookkeeping can raise after a charge. */
  function Stake(c: Call, mayRaise: bool): nat { if mayRaise then c.left else 1 }

  /** The charges still to be expected for a role. */
  function Load(calls: seq<Call>, role: string, mayRaise: bool): nat {
    if calls == [] then 0
    else Load(calls[1..], role, mayRaise) + if calls[0].role == role then Stake(calls[0], mayRaise) else 0
  }

  lemma {:induction false} LoadConcat(xs: seq<Call>, ys: seq<Call>, role: string, mayRaise: bool)
    ensures Load(xs + ys, role, mayRaise) == Load(xs, role, mayRaise) + Load(ys, role, mayRaise)
  {
    if xs == [] {
      assert xs + ys == ys;
    } else {
      assert (xs + ys)[1..] == xs[1..] + ys;
      LoadConcat(xs[1..], ys, role, mayRaise);
    }
  }

  function StakeFor(c: Call, role: string, mayRaise: bool): nat {
    if c.role == role then Stake(c, mayRaise) else 0
  }

  lemma LoadOne(c: Call, role: string, mayRaise: bool)
    ensures Load([c], role, mayRaise) == StakeFor(c, role, mayRaise)
  {
    assert [c][1..] == [];
  }

  lemma LoadWithout(calls: seq<Call>, i: nat, role: string, mayRaise: bool)
    requires i < |calls|
    ensures Load(Without(calls, i), role, mayRaise) == Load(calls, role, mayRaise) - StakeFor(calls[i], role, mayRaise)
  {
    hide Load;
    LoadConcat(calls[..i], calls[i + 1..], role, mayRaise);
    LoadConcat(calls[..i] + [calls[i]], calls[i + 1..], role, mayRaise);
    LoadConcat(calls[..i], [calls[i]], role, mayRaise);
    LoadOne(calls[i], role, mayRaise);
    assert calls[..i] + [calls[i]] + calls[i + 1..] == calls;
  }

  lemma LoadTurnOver(calls: seq<Call>, i: nat, role: string, mayRaise: bool)
    requires i < |calls| && calls[i].left > 0
    ensures var n, m := Load(calls, role, mayRaise), Load(TurnOver(calls, i), role, mayRaise);
            m <= n && (mayRaise && calls[i].role == role ==> m == n - 1)
  {
    hide Load;
    LoadWithout(calls, i, role, mayRaise);
    if calls[i].left > 1 {
      var c := calls[i].(left := calls[i].left - 1);
      LoadWithout(calls[i := c], i, role, mayRaise);
      assert Without(calls[i := c], i) == Without(calls, i);
    }
  }

  // ---------- the overshoot bound ----------

  /** The run's charges are at most `maxCost` each, and bookkeeping raises only if `mayRaise`. */
  predicate Costs(steps: seq<Step>, maxCost: real, mayRaise: bool) {
    forall s | s in steps && s.Pay? :: 0.0 <= s.cost <= maxCost && (s.raises ==> mayRaise)
  }

  /** At no point of the run are more than `k` charges to be expected for the role. */
  predicate LoadAtMost(steps: seq<Step>, budget: real, day0: int, role: string, mayRaise: bool, k: nat) {
    forall n | 0 <= n <= |steps| :: Load(Run(steps[..n], budget, day0).calls, role, mayRaise) <= k
  }

  function Times(n: nat, x: real): real { n as real * x }

  lemma TimesStep(n: nat, m: nat, x: real)
    requires x >= 0.0 && n <= m
    ensures Times(n + 1, x) == Times(n, x) + x && 0.0 <= Times(n, x) <= Times(m, x)
  {
    assert m as real * x == n as real * x + (m - n) as real * x;
  }

  /** Today's spend is below the budget, or what is still to come keeps it below the bound; other
      days are below the bound; later ones are untouched. */
  ghost predicate Bounded(w: World, budget: real, maxCost: real, role: string, mayRaise: bool, k: nat) {
    var spend := SpendOf(w.table, w.today, role);
    && (spend < budget || spend + Times(Load(w.calls, role, mayRaise), maxCost) < budget + Times(k, maxCost))
    && (forall d :: SpendOf(w.table, d, role) < budget + Times(k, maxCost))
    && (forall d | d > w.today :: SpendOf(w.table, d, role) == 0.0)
    && (forall c | c in w.calls :: c.left > 0)
  }

  lemma CallsStayLive(w: World, s: Step, budget: real)
    requires forall c | c in w.calls :: c.left > 0
    ensures forall c | c in Next(w, s, budget).calls :: c.left > 0
  {
  }

  lemma LessLoadStaysBounded(w: World, v: World, budget: real, maxCost: real, role: string, mayRaise: bool, k: nat)
    requires Bounded(w, budget, maxCost, role, mayRaise, k) && maxCost >= 0.0
    requires v.table == w.table && v.today == w.today && forall c | c in v.calls :: c.left > 0
    requires SpendOf(w.table, w.today, role) < budget || Load(v.calls, role, mayRaise) <= Load(w.calls, role, mayRaise)
    ensures Bounded(v, budget, maxCost, role, mayRaise, k)
  {
    if Load(v.calls, role, mayRaise) <= Load(w.calls, role, mayRaise) {
      TimesStep(Load(v.calls, role, mayRaise), Load(w.calls, role, mayRaise), maxCost);
    }
  }

  lemma PayStaysBounded(w: World, v: World, cost: real, budget: real, maxCost: real,
                        role: string, mayRaise: bool, k: nat)
    requires Bounded(w, budget, maxCost, role, mayRaise, k) && 0.0 <= cost <= maxCost
    requires v.table == Added(w.table, w.today, role, cost) && v.today == w.today
    requires Load(v.calls, role, mayRaise) + 1 <= Load(w.calls, role, mayRaise) <= k
    requires forall c | c in v.calls :: c.left > 0
    ensures Bounded(v, budget, maxCost, role, mayRaise, k)
  {
    hide Times, Load;
    var n, m := Load(v.calls, role, mayRaise), Load(w.calls, role, mayRaise);
    TimesStep(n, m, maxCost);
    TimesStep(n + 1, m, maxCost);
    TimesStep(n + 1, k, maxCost);
    assert SpendOf(v.table, v.today, role) + Times(n, maxCost) < budget + Times(k, maxCost);
    assert forall d | d != w.today :: SpendOf(v.table, d, role) == SpendOf(w.table, d, role);
  }

  lemma OtherPayStaysBounded(w: World, v: World, other: string, cost: real, budget: real, maxCost: real,
                             role: string, mayRaise: bool, k: nat)
    requires Bounded(w, budget, maxCost, role, mayRaise, k) && maxCost >= 0.0 && other != role
    requires v.table == Added(w.table, w.today, other, cost) && v.today == w.today
    requires Load(v.calls, role, mayRaise) <= Load(w.calls, role, mayRaise)
    requires forall c | c in v.calls :: c.left > 0
    ensures Bounded(v, budget, maxCost, role, mayRaise, k)
  {
    TimesStep(Load(v.calls, role, mayRaise), Load(w.calls, role, mayRaise), maxCost);
    assert forall d :: SpendOf(v.table, d, role) == SpendOf(w.table, d, role);
  }

  lemma StepStaysBounded(w: World, s: Step, budget: real, maxCost: real, role: string, mayRaise: bool, k: nat)
    requires budget > 0.0 && maxCost >= 0.0
    requires Bounded(w, budget, maxCost, role, mayRaise, k) && Load(w.calls, role, mayRaise) <= k
    requires s.Pay? ==> 0.0 <= s.cost <= maxCost && (s.raises ==> mayRaise)
    ensures Bounded(Next(w, s, budget), budget, maxCost, role, mayRaise, k)
  {
    hide Load, Times, Added;
    var v := Next(w, s, budget);
    CallsStayLive(w, s, budget);
    match s {
      case Begin(r, providers) =>
        LoadConcat(w.calls, [Call(r, providers)], role, mayRaise);
        LoadOne(Call(r, providers), role, mayRaise);
        LessLoadStaysBounded(w, v, budget, maxCost, role, mayRaise, k);
      case Fail(i) =>
        if i < |w.calls| {
          LoadTurnOver(w.calls, i, role, mayRaise);
        }
        LessLoadStaysBounded(w, v, budget, maxCost, role, mayRaise, k);
      case Abort(i) =>
        if i < |w.calls| {
          LoadWithout(w.calls, i, role, mayRaise);
        }
        LessLoadStaysBounded(w, v, budget, maxCost, role, mayRaise, k);
      case Pay(i, cost, raises) =>
        if i < |w.calls| {
          LoadWithout(w.calls, i, role, mayRaise);
          LoadTurnOver(w.calls, i, role, mayRaise);
          if w.calls[i].role == role {
            PayStaysBounded(w, v, cost, budget, maxCost, role, mayRaise, k);
          } else {
            OtherPayStaysBounded(w, v, w.calls[i].role, cost, budget, maxCost, role, mayRaise, k);
          }
        }
      case Midnight(day) =>
    }
  }

  lemma {:induction false} RunStaysBounded(steps: seq<Step>, budget: real, day0: int, maxCost: real,
                                           role: string, mayRaise: bool, k: nat)
    requires budget > 0.0 && maxCost >= 0.0 && Costs(steps, maxCost, mayRaise)
    requires LoadAtMost(steps, budget, day0, role, mayRaise, k)
    ensures Bounded(Run(steps, budget, day0), budget, maxCost, role, mayRaise, k)
  {
    hide Next, Bounded, Load;
    if steps == [] {
      EmptyIsBounded(budget, day0, maxCost, role, mayRaise, k);
    } else {
      var n := |steps| - 1;
      forall l | 0 <= l <= n
        ensures Load(Run(steps[..n][..l], budget, day0).calls, role, mayRaise) <= k
      {
        assert steps[..n][..l] == steps[..l];
      }
      RunStaysBounded(steps[..n], budget, day0, maxCost, role, mayRaise, k);
      assert Load(Run(steps[..n], budget, day0).calls, role, mayRaise) <= k;
      assert steps[n] in steps;
      StepStaysBounded(Run(steps[..n], budget, day0), steps[n], budget, maxCost, role, mayRaise, k);
    }
  }

  lemma EmptyIsBounded(budget: real, day0: int, maxCost: real, role: string, mayRaise: bool, k: nat)
    requires budget > 0.0 && maxCost >= 0.0
    ensures Bounded(World(map[], [], day0, []), budget, maxCost, role, mayRaise, k)
  {
    TimesStep(0, k, maxCost);
  }

  /** In any interleaving in which at most `k` charges of the role are ever to be expected (one for
      each call past its check, or one for each provider it may still try if the bookkeeping can
      raise), every day's spend stays below budget + k * maxCost, across midnight too. */
  lemma OvershootBound(steps: seq<Step>, budget: real, day0: int, maxCost: real,
                       role: string, mayRaise: bool, k: nat, day: int)
    requires budget > 0.0 && maxCost >= 0.0 && Costs(steps, maxCost, mayRaise)
    requires LoadAtMost(steps, budget, day0, role, mayRaise, k)
    ensures SpendOf(Run(steps, budget, day0).table, day, role) < budget + k as real * maxCost
  {
    RunStaysBounded(steps, budget, day0, maxCost, role, mayRaise, k);
  }

  /** The calls of a role that are between check and charge. */
  function InFlight(calls: seq<Call>, role: string): nat {
    if calls == [] then 0 else InFlight(calls[1..], role) + if calls[0].role == role then 1 else 0
  }

  lemma {:induction false} LoadIsInFlight(calls: seq<Call>, role: string)
    ensures Load(calls, role, false) == InFlight(calls, role)
  {
    if calls != [] {
      LoadIsInFlight(calls[1..], role);
    }
  }

  /** The same bound in terms of calls alone: with at most `k` of a role's calls between check and
      charge at any time, and bookkeeping that never raises. */
  lemma OvershootBoundByCalls(steps: seq<Step>, budget: real, day0: int, maxCost: real, role: string, k: nat, day: int)
    requires budget > 0.0 && maxCost >= 0.0 && Costs(steps, maxCost, false)
    requires forall n | 0 <= n <= |steps| :: InFlight(Run(steps[..n], budget, day0).calls, role) <= k
    ensures SpendOf(Run(steps, budget, day0).table, day, role) < budget + k as real * maxCost
  {
    hide Run;
    forall n | 0 <= n <= |steps| ensures Load(Run(steps[..n], budget, day0).calls, role, false) <= k {
      LoadIsInFlight(Run(steps[..n], budget, day0).calls, role);
    }
    OvershootBound(steps, budget, day0, maxCost, role, false, k, day);
  }

  /** A budget of nothing starts nothing. */
  lemma {:induction false} NoBudgetNoCharge(steps: seq<Step>, budget: real, day0: int)
    requires budget <= 0.0
    ensures var w := Run(steps, budget, day0); w.calls == [] && w.log == [] && w.table == map[]
  {
    if steps != [] {
      NoBudgetNoCharge(steps[..|steps| - 1], budget, day0);
    }
  }

  /** `k` calls that all pass the check before any of them pays, and their payments. */
  function Rush(k: nat, role: string): seq<Step> {
    if k == 0 then [] else [Begin(role, 1)] + Rush(k - 1, role)
  }

  function Payday(k: nat, cost: real): seq<Step> {
    if k == 0 then [] else [Pay(0, cost, false)] + Payday(k - 1, cost)
  }

  function Pending(k: nat, role: string): seq<Call> {
    if k == 0 then [] else [Call(role, 1)] + Pending(k - 1, role)
  }

  function RunFrom(w: World, steps: seq<Step>, budget: real): World
    decreases steps
  {
    if steps == [] then w else RunFrom(Next(w, steps[0], budget), steps[1..], budget)
  }

  /** The steps of a completion that runs alone, once it has passed its check. */
  function Script(attempts: seq<Attempt>, i: nat): seq<Step>
    requires i <= |attempts|
    decreases |attempts| - i
  {
    if i == |attempts| then []
    else
      var a := attempts[i];
      match FinalCost(a)
      case None => [Midnight(a.day), Fail(0)] + Script(attempts, i + 1)
      case Some(cost) =>
        [Midnight(a.day), Pay(0, cost, a.bookkeepingRaises)]
        + if a.bookkeepingRaises then Script(attempts, i + 1) else []
  }

  lemma RunFromTwo(w: World, a: Step, b: Step, rest: seq<Step>, budget: real)
    ensures RunFrom(w, [a, b] + rest, budget) == RunFrom(Next(Next(w, a, budget), b, budget), rest, budget)
  {
    assert [a, b] + rest == [a] + ([b] + rest);
    RunFromOne(w, a, [b] + rest, budget);
    RunFromOne(Next(w, a, budget), b, rest, budget);
    hide Next, RunFrom;
  }

  /** The step in which a provider's turn ends. */
  function EndOfTurn(a: Attempt): Step {
    match FinalCost(a) case None => Fail(0) case Some(cost) => Pay(0, cost, a.bookkeepingRaises)
  }

  lemma TurnTaken(w: World, a: Attempt, role: string, left: nat, budget: real)
    requires w.calls == [Call(role, left)] && left > 0 && w.today <= a.day
    ensures var v := Next(Next(w, Midnight(a.day), budget), EndOfTurn(a), budget);
            && v.today == a.day
            && v.table == (match FinalCost(a) case None => w.table case Some(cost) => Added(w.table, a.day, role, cost))
            && v.calls == (if (FinalCost(a).None? || a.bookkeepingRaises) && left > 1 then [Call(role, left - 1)]
                           else [])
  {
    hide FinalCost, Added;
    var u := Next(w, Midnight(a.day), budget);
    assert u.calls == [Call(role, left)] && u.today == a.day && u.table == w.table;
    assert Without(u.calls, 0) == [];
    assert left > 1 ==> TurnOver(u.calls, 0) == [Call(role, left - 1)];
  }

  lemma {:induction false} ScriptTries(w: World, role: string, attempts: seq<Attempt>, i: nat, budget: real)
    requires i <= |attempts| && w.calls == (if i == |attempts| then [] else [Call(role, |attempts| - i)])
    requires forall k, l | i <= k <= l < |attempts| :: w.today <= attempts[k].day <= attempts[l].day
    ensures RunFrom(w, Script(attempts, i), budget).table == TryFrom(w.table, role, attempts, i).table
    ensures RunFrom(w, Script(attempts, i), budget).calls == []
    decreases |attempts| - i
  {
    hide FinalCost, Added, Next;
    if i < |attempts| {
      var a := attempts[i];
      var goesOn := FinalCost(a).None? || a.bookkeepingRaises;
      var rest := if goesOn then Script(attempts, i + 1) else [];
      var v := Next(Next(w, Midnight(a.day), budget), EndOfTurn(a), budget);
      RunFromTwo(w, Midnight(a.day), EndOfTurn(a), rest, budget);
      assert Script(attempts, i) == [Midnight(a.day), EndOfTurn(a)] + rest;
      assert w.today <= attempts[i].day <= attempts[i].day;
      TurnTaken(w, a, role, |attempts| - i, budget);
      hide EndOfTurn;
      if goesOn {
        ScriptTries(v, role, attempts, i + 1, budget);
      }
    }
  }

  /** The interleaved model is the code's: a completion that passes its check and runs alone, through the
      steps of its providers' turns in order, leaves the table that `complete` leaves. */
  lemma AloneIsComplete(t: map<Key, real>, today: int, log: seq<Charge>, role: string, attempts: seq<Attempt>,
                        budget: real)
    requires SpendOf(t, today, role) < budget
    requires forall k, l | 0 <= k <= l < |attempts| :: today <= attempts[k].day <= attempts[l].day
    ensures var w := RunFrom(World(t, [], today, log), [Begin(role, |attempts|)] + Script(attempts, 0), budget);
            w.table == TryFrom(t, role, attempts, 0).table && w.calls == []
  {
    hide Script, TryFrom, SpendOf;
    var w := World(t, [], today, log);
    var steps := [Begin(role, |attempts|)] + Script(attempts, 0);
    assert steps[0] == Begin(role, |attempts|) && steps[1..] == Script(attempts, 0);
    assert [] + [Call(role, |attempts|)] == [Call(role, |attempts|)];
    ScriptTries(Next(w, steps[0], budget), role, attempts, 0, budget);
  }

  lemma {:induction false} RushStarts(w: World, k: nat, role: string, budget: real)
    requires SpendOf(w.table, w.today, role) < budget
    ensures RunFrom(w, Rush(k, role), budget) == w.(calls := w.calls + Pending(k, role))
    decreases k
  {
    hide SpendOf, RunFrom;
    if k == 0 {
      RunFromNothing(w, budget);
      assert w.calls + [] == w.calls;
    } else {
      var v := w.(calls := w.calls + [Call(role, 1)]);
      assert v == Next(w, Begin(role, 1), budget);
      RunFromOne(w, Begin(role, 1), Rush(k - 1, role), budget);
      RushStarts(v, k - 1, role, budget);
      assert (w.calls + [Call(role, 1)]) + Pending(k - 1, role) == w.calls + Pending(k, role);
    }
  }

  lemma OnePays(w: World, k: nat, role: string, cost: real, budget: real)
    requires w.calls == Pending(k + 1, role)
    ensures var v := Next(w, Pay(0, cost, false), budget);
            && v.calls == Pending(k, role) && v.today == w.today
            && SpendOf(v.table, v.today, role) == SpendOf(w.table, w.today, role) + cost
  {
    assert w.calls == [Call(role, 1)] + Pending(k, role);
  }

  lemma {:induction false} PaydayPays(w: World, k: nat, role: string, cost: real, budget: real)
    requires w.calls == Pending(k, role)
    ensures SpendOf(RunFrom(w, Payday(k, cost), budget).table, w.today, role)
            == SpendOf(w.table, w.today, role) + Times(k, cost)
    decreases k
  {
    hide Times, Next, Pending, SpendOf, RunFrom;
    OneMore(k - 1, cost);
    if k == 0 {
      RunFromNothing(w, budget);
    } else {
      OnePays(w, k - 1, role, cost, budget);
      RunFromOne(w, Pay(0, cost, false), Payday(k - 1, cost), budget);
      PaydayPays(Next(w, Pay(0, cost, false), budget), k - 1, role, cost, budget);
    }
  }

  lemma RunFromNothing(w: World, budget: real)
    ensures RunFrom(w, [], budget) == w
  {
  }

  lemma RunFromOne(w: World, s: Step, rest: seq<Step>, budget: real)
    ensures RunFrom(w, [s] + rest, budget) == RunFrom(Next(w, s, budget), rest, budget)
  {
    assert ([s] + rest)[0] == s && ([s] + rest)[1..] == rest;
  }

  lemma OneMore(n: int, x: real)
    ensures n >= 0 ==> Times(n + 1, x) == Times(n, x) + x
    ensures Times(0, x) == 0.0
  {
  }

  /** The bound is tight: from any spend below the budget, `k` calls can add `k` full costs. */
  lemma OvershootIsReached(w: World, k: nat, role: string, cost: real, budget: real)
    requires w.calls == [] && SpendOf(w.table, w.today, role) < budget
    ensures SpendOf(RunFrom(RunFrom(w, Rush(k, role), budget), Payday(k, cost), budget).table, w.today, role)
            == SpendOf(w.table, w.today, role) + k as real * cost
  {
    hide RunFrom, SpendOf, Rush, Payday, Pending;
    RushStarts(w, k, role, budget);
    PaydayPays(w.(calls := [] + Pending(k, role)), k, role, cost, budget);
  }
}
