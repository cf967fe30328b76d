/**
 Pricing, usage recording and the monthly budget alert, for one organisation and
 one calendar month.

 Money is counted in units of 1e-8 dollars. A price in cents per million tokens
 is then that many units per token, so every cost is exact.
 */
module Budget {
  import opened Wrappers

  const MICRO := 100          // units in the last stored decimal, 1e-6 dollars
  const CENT := 1_000_000     // units in a cent, the last decimal of a budget

  // ---- Pricing ----

  /** Input and output price in cents per million tokens; unknown models cost nothing. */
  function GenerationPrice(provider: string, model: string): (nat, nat) {
    if provider == "anthropic" && model == "claude-opus-4-8" then (1500, 7500)
    else if provider == "openai" && model == "gpt-4o-mini" then (15, 60)
    else if provider == "gemini" && model == "gemini-2.5-flash" then (30, 250)
    else (0, 0)
  }

  function EmbeddingPrice(provider: string, model: string): nat {
    if provider == "openai" && model == "text-embedding-3-small" then 2
    else if provider == "gemini" && model == "gemini-embedding-001" then 15
    else 0
  }

  function GenerationCost(provider: string, model: string, inputTokens: nat, outputTokens: nat): nat {
    var (input, output) := GenerationPrice(provider, model);
    inputTokens * input + outputTokens * output
  }

  function EmbeddingCost(provider: string, model: string, tokens: nat): nat {
    tokens * EmbeddingPrice(provider, model)
  }

  /** What a generation costs, in units, by model; ninety dollars for a million tokens each way of the dearest one. */
  lemma GenerationCosts(input: nat, output: nat, provider: string, model: string)
    ensures GenerationCost("anthropic", "claude-opus-4-8", input, output) == 1_500 * input + 7_500 * output
    ensures GenerationCost("openai", "gpt-4o-mini", input, output) == 15 * input + 60 * output
    ensures GenerationCost("gemini", "gemini-2.5-flash", input, output) == 30 * input + 250 * output
    ensures (provider, model) !in {("anthropic", "claude-opus-4-8"), ("openai", "gpt-4o-mini"),
                                   ("gemini", "gemini-2.5-flash")} ==>
              GenerationCost(provider, model, input, output) == 0
  {
  }

  lemma EmbeddingCosts(tokens: nat, provider: string, model: string)
    ensures EmbeddingCost("openai", "text-embedding-3-small", tokens) == 2 * tokens
    ensures EmbeddingCost("gemini", "gemini-embedding-001", tokens) == 15 * tokens
    ensures (provider, model) !in {("openai", "text-embedding-3-small"), ("gemini", "gemini-embedding-001")} ==>
              EmbeddingCost(provider, model, tokens) == 0
  {
  }

  /** The database keeps six decimals of a dollar and rounds halves up. */
  function Rounded(cost: nat): (r: nat)
    ensures r % MICRO == 0
    ensures cost < r + 50 && r <= cost + 50
    ensures cost % MICRO == 0 ==> r == cost
  {
    (cost + 50) / 100 * 100
  }

  // ---- The ledger ----

  datatype Kind = Generation | Embedding

  datatype UsageEvent = UsageEvent(kind: Kind, provider: string, model: string,
                                   inputTokens: nat, outputTokens: nat, stored: nat)

  function Total(events: seq<UsageEvent>): nat {
    if events == [] then 0 else Total(events[..|events| - 1]) + events[|events| - 1].stored
  }

  /** Month-to-date spend and the budget in units, if there is one. */
  datatype Account = Account(total: nat, budget: Option<nat>)

  ghost predicate Valid(a: Account) {
    && a.total % MICRO == 0
    && (a.budget.Some? ==> a.budget.value % CENT == 0)
  }

  predicate Over(a: Account) {
    a.budget.Some? && a.budget.value <= a.total
  }

  /** The test of `record_usage`: it uses the unrounded cost. */
  predicate Crosses(a: Account, cost: nat) {
    a.budget.Some? && a.total < a.budget.value <= a.total + cost
  }

  function Spent(a: Account, cost: nat): Account {
    a.(total := a.total + Rounded(cost))
  }

  class Ledger {
    var events: seq<UsageEvent>
    var budget: Option<nat>

    function State(): Account
      reads this
    {
      Account(Total(events), budget)
    }

    ghost predicate Valid()
      reads this
    {
      && (forall e | e in events :: e.stored % MICRO == 0)
      && (budget.Some? ==> budget.value % CENT == 0)
    }

    constructor ()
      ensures Valid() && events == [] && budget == None
    {
      events, budget := [], None;
    }

    /** `PATCH /organizations/me`; no budget means no limit. */
    method SetBudget(cents: Option<nat>)
      requires Valid()
      modifies this`budget
      ensures Valid()
      ensures State() == Apply(old(State()), Op.SetBudget(cents))
      ensures budget == match cents case None => None case Some(n) => Some(n * 1_000_000)
    {
      budget := if cents.None? then None else Some(cents.value * CENT);
    }

    method MonthToDateCost() returns (total: nat)
      ensures total == Total(events)
    {
      total := 0;
      for i := 0 to |events|
        invariant total == Total(events[..i])
      {
        assert events[..i + 1][..i] == events[..i];
        total := total + events[i].stored;
      }
      assert events[..|events|] == events;
    }

    method RecordUsage(kind: Kind, provider: string, model: string, inputTokens: nat, outputTokens: nat, cost: nat)
      returns (crossed: bool)
      requires Valid()
      modifies this`events
      ensures Valid()
      ensures events == old(events) + [UsageEvent(kind, provider, model, inputTokens, outputTokens, Rounded(cost))]
      ensures State() == Apply(old(State()), Spend(kind, cost))
      ensures crossed == Reports(old(State()), Spend(kind, cost))
      ensures crossed <==> budget.Some? && Total(old(events)) < budget.value <= Total(old(events)) + cost
    {
      var prior := MonthToDateCost();
      var event := UsageEvent(kind, provider, model, inputTokens, outputTokens, Rounded(cost));
      assert (events + [event])[..|events|] == events;
      events := events + [event];
      crossed := budget.Some? && prior < budget.value <= prior + cost;
    }
  }

  /** The total of a month is the sum of what its events have stored, and nothing at its beginning. */
  lemma {:induction false} TotalIsSum(a: seq<UsageEvent>, b: seq<UsageEvent>)
    ensures Total(a + b) == Total(a) + Total(b)
    ensures Total([]) == 0 && (|a| == 1 ==> Total(a) == a[0].stored)
  {
    if b == [] {
      assert a + b == a;
    } else {
      var ab, rest := a + b, b[..|b| - 1];
      TotalIsSum(a, rest);
      assert ab[..|ab| - 1] == a + rest && ab[|ab| - 1] == b[|b| - 1];
    }
    if |a| == 1 {
      assert a[..0] == [];
    }
  }

  lemma {:induction false} TotalOnGrid(events: seq<UsageEvent>)
    requires forall e | e in events :: e.stored % MICRO == 0
    ensures Total(events) % MICRO == 0
  {
    if events != [] {
      TotalOnGrid(events[..|events| - 1]);
    }
  }

  // ---- One crossing ----

  /**
   Budgets and stored totals lie on the micro-dollar grid, so an event that reports
   a crossing leaves the stored total at or over the budget although its own cost
   is rounded when stored.
   */
  lemma CrossingReachesBudget(a: Account, cost: nat)
    requires Valid(a) && Crosses(a, cost)
    ensures Over(Spent(a, cost)) && !Over(a)
  {
    GapOnGrid(a);
    RoundedReaches(cost, a.budget.value - a.total);
  }

  /** What is left of the budget is a whole number of micro-dollars. */
  lemma GapOnGrid(a: Account)
    requires Valid(a) && a.budget.Some?
    ensures (a.budget.value - a.total) % MICRO == 0
  {
    var cents, micros := a.budget.value / CENT, a.total / MICRO;
    assert a.budget.value == CENT * cents && a.total == MICRO * micros;
    MultipleOnGrid(10_000 * cents - micros);
  }

  lemma MultipleOnGrid(k: int)
    ensures (MICRO * k) % MICRO == 0
  {
  }

  /** A cost that reaches a gap on the grid still does so when it is rounded; the converse may fail only on landing. */
  lemma RoundedReaches(cost: nat, gap: int)
    requires gap % MICRO == 0
    ensures gap <= cost ==> gap <= Rounded(cost)
    ensures cost < gap <= Rounded(cost) ==> Rounded(cost) == gap
  {
    var i, j := Rounded(cost) / MICRO, gap / MICRO;
    assert Rounded(cost) == MICRO * i && gap == MICRO * j;
  }

  /** Rounding alone carried the stored total up to the budget. */
  predicate LandsByRounding(a: Account, cost: nat) {
    a.budget.Some? && a.total + Rounded(cost) == a.budget.value && cost < Rounded(cost)
  }

  /**
   An event that takes the stored total from under to at or over the budget reports
   it, except exactly when rounding up made it land on the budget.
   */
  lemma MissedExactlyByRounding(a: Account, cost: nat)
    requires Valid(a) && !Over(a) && Over(Spent(a, cost))
    ensures Crosses(a, cost) <==> !LandsByRounding(a, cost)
  {
    GapOnGrid(a);
    RoundedReaches(cost, a.budget.value - a.total);
  }

  // ---- Serial months ----

  datatype Op = Spend(kind: Kind, cost: nat) | SetBudget(cents: Option<nat>)

  function Apply(a: Account, op: Op): Account {
    match op
    case Spend(_, cost) => Spent(a, cost)
    case SetBudget(None) => a.(budget := None)
    case SetBudget(Some(cents)) => a.(budget := Some(cents * CENT))
  }

  predicate Reports(a: Account, op: Op) {
    op.Spend? && Crosses(a, op.cost)
  }

  /** Only generation passes a crossing on as an alert. */
  predicate SendsAlert(a: Account, op: Op) {
    Reports(a, op) && op.kind == Generation
  }

  /** No budget counts as an infinite one. */
  predicate Raises(a: Account, op: Op) {
    && op.SetBudget? && a.budget.Some?
    && (op.cents.Some? ==> op.cents.value * CENT > a.budget.value)
  }

  /** What an operation does to the account, and when it raises the limit. */
  lemma OperationExact(a: Account, op: Op)
    ensures var next := Apply(a, op);
            && (op.Spend? ==> next.budget == a.budget && next.total == a.total + Rounded(op.cost))
            && (op.SetBudget? ==> next.total == a.total && (next.budget.Some? <==> op.cents.Some?))
            && (op.SetBudget? && op.cents.Some? ==> next.budget.value == op.cents.value * 1_000_000)
            && (Raises(a, op) <==> a.budget.Some? && (next.budget.None? || next.budget.value > a.budget.value))
  {
  }

  function After(a: Account, ops: seq<Op>): Account
    decreases |ops|
  {
    if ops == [] then a else After(Apply(a, ops[0]), ops[1..])
  }

  function Count(b: bool): nat {
    if b then 1 else 0
  }

  function Crossings(a: Account, ops: seq<Op>): nat
    decreases |ops|
  {
    if ops == [] then 0 else Count(Reports(a, ops[0])) + Crossings(Apply(a, ops[0]), ops[1..])
  }

  function Alerts(a: Account, ops: seq<Op>): nat
    decreases |ops|
  {
    if ops == [] then 0 else Count(SendsAlert(a, ops[0])) + Alerts(Apply(a, ops[0]), ops[1..])
  }

  function RaiseCount(a: Account, ops: seq<Op>): nat
    decreases |ops|
  {
    if ops == [] then 0 else Count(Raises(a, ops[0])) + RaiseCount(Apply(a, ops[0]), ops[1..])
  }

  lemma ApplyValid(a: Account, op: Op)
    requires Valid(a)
    ensures Valid(Apply(a, op))
  {
  }

  /**
   A month with budget edits sends at most one alert more than the budget was
   raised, and none of them if it starts over a budget that is never raised.
   */
  lemma {:induction false} AlertsBoundedByRaises(a: Account, ops: seq<Op>)
    requires Valid(a)
    ensures Alerts(a, ops) <= Crossings(a, ops) <= RaiseCount(a, ops) + Count(!Over(a))
    decreases |ops|
  {
    if ops != [] {
      var next := Apply(a, ops[0]);
      ApplyValid(a, ops[0]);
      AlertsBoundedByRaises(next, ops[1..]);
      if Reports(a, ops[0]) {
        CrossingReachesBudget(a, ops[0].cost);
      }
    }
  }

  ghost predicate OnlySpends(ops: seq<Op>) {
    forall op | op in ops :: op.Spend?
  }

  lemma {:induction false} SpendsNeverRaise(a: Account, ops: seq<Op>)
    requires OnlySpends(ops)
    ensures RaiseCount(a, ops) == 0
    ensures After(a, ops).budget == a.budget && After(a, ops).total >= a.total
    decreases |ops|
  {
    if ops != [] {
      SpendsNeverRaise(Apply(a, ops[0]), ops[1..]);
    }
  }

  /** With a fixed budget a month reports at most one crossing. */
  lemma AtMostOneAlert(a: Account, ops: seq<Op>)
    requires Valid(a) && OnlySpends(ops)
    ensures Alerts(a, ops) <= Crossings(a, ops) <= 1
  {
    SpendsNeverRaise(a, ops);
    AlertsBoundedByRaises(a, ops);
  }

  /** Operation `i` is the one that takes the stored total from under to at or over the budget. */
  ghost predicate Passes(a: Account, ops: seq<Op>, i: nat) {
    i < |ops| && !Over(After(a, ops[..i])) && Over(After(a, ops[..i + 1]))
  }

  lemma {:induction false} AfterSnoc(a: Account, ops: seq<Op>, i: nat)
    requires i < |ops|
    ensures After(a, ops[..i + 1]) == Apply(After(a, ops[..i]), ops[i])
    decreases |ops|
  {
    if i > 0 {
      assert ops[..i + 1][1..] == ops[1..][..i] && ops[..i][1..] == ops[1..][..i - 1];
      AfterSnoc(Apply(a, ops[0]), ops[1..], i - 1);
    } else {
      assert ops[..1][1..] == [] && ops[..0] == [];
    }
  }

  lemma {:induction false} NoneWhenOver(a: Account, ops: seq<Op>)
    requires Over(a) && OnlySpends(ops)
    ensures Crossings(a, ops) == Alerts(a, ops) == 0 && Over(After(a, ops))
    decreases |ops|
  {
    if ops != [] {
      NoneWhenOver(Apply(a, ops[0]), ops[1..]);
    }
  }

  /** A month whose stored total is under its budget at the end, or has none, reports nothing. */
  lemma {:induction false} NoneWhenUnder(a: Account, ops: seq<Op>)
    requires Valid(a) && OnlySpends(ops) && !Over(After(a, ops))
    ensures Crossings(a, ops) == Alerts(a, ops) == 0
    decreases |ops|
  {
    if ops != [] {
      NoneWhenUnder(Apply(a, ops[0]), ops[1..]);
      if Reports(a, ops[0]) {
        CrossingReachesBudget(a, ops[0].cost);
        NoneWhenOver(Apply(a, ops[0]), ops[1..]);
      }
    }
  }

  /**
   The crossing is reported exactly once unless rounding up made the passing event
   land on the budget, and it is an alert exactly when that event is a generation.
   */
  lemma {:induction false} AlertsWhenPassing(a: Account, ops: seq<Op>, i: nat)
    requires Valid(a) && OnlySpends(ops) && Passes(a, ops, i)
    ensures var at := After(a, ops[..i]);
            && Crossings(a, ops) == Count(!LandsByRounding(at, ops[i].cost))
            && Alerts(a, ops) == Count(!LandsByRounding(at, ops[i].cost) && ops[i].kind == Generation)
    decreases |ops|
  {
    AfterSnoc(a, ops, i);
    if i == 0 {
      assert ops[..0] == [];
      MissedExactlyByRounding(a, ops[0].cost);
      NoneWhenOver(Apply(a, ops[0]), ops[1..]);
    } else {
      assert ops[..i + 1][1..] == ops[1..][..i] && ops[..i][1..] == ops[1..][..i - 1];
      AlertsWhenPassing(Apply(a, ops[0]), ops[1..], i - 1);
      if Reports(a, ops[0]) {
        CrossingReachesBudget(a, ops[0].cost);
        NoneWhenOver(Apply(a, ops[0]), ops[1..][..i - 1]);
      }
    }
  }

  lemma {:induction false} SomeEventPasses(a: Account, ops: seq<Op>) returns (i: nat)
    requires OnlySpends(ops) && !Over(a) && Over(After(a, ops))
    ensures Passes(a, ops, i)
    decreases |ops|
  {
    if Over(Apply(a, ops[0])) {
      i := 0;
      AfterSnoc(a, ops, 0);
      assert ops[..0] == [];
    } else {
      i := SomeEventPasses(Apply(a, ops[0]), ops[1..]);
      assert ops[..i + 2][1..] == ops[1..][..i + 1] && ops[..i + 1][1..] == ops[1..][..i];
      i := i + 1;
    }
  }

  ghost predicate OnGrid(ops: seq<Op>) {
    forall op | op in ops && op.Spend? :: op.cost % MICRO == 0
  }

  /** On the micro-dollar grid: one report exactly when the month goes from under to at or over its budget. */
  lemma ExactlyOneOnGrid(a: Account, ops: seq<Op>)
    requires Valid(a) && OnlySpends(ops) && OnGrid(ops)
    ensures Crossings(a, ops) == 1 <==> !Over(a) && Over(After(a, ops))
  {
    if Over(a) {
      NoneWhenOver(a, ops);
    } else if Over(After(a, ops)) {
      var i := SomeEventPasses(a, ops);
      AlertsWhenPassing(a, ops, i);
      assert ops[i] in ops;
    } else {
      NoneWhenUnder(a, ops);
    }
  }

  /**
   "Exactly one alert" is not what happens in every month that exhausts its budget:
   here the passing event lands on a one-cent budget by rounding, and there is none.
   */
  lemma NoAlertByRounding()
    ensures var a := Account(0, Some(CENT));
            var ops := [Spend(Generation, GenerationCost("gemini", "gemini-2.5-flash", 33_330, 0)),
                        Spend(Generation, GenerationCost("openai", "gpt-4o-mini", 4, 0))];
            Over(After(a, ops)) && Crossings(a, ops) == 0
  {
    var a := Account(0, Some(CENT));
    var first, second := Spend(Generation, 999_900), Spend(Generation, 60);
    var b := Apply(a, first);
    assert b == Account(999_900, Some(CENT));
    assert Apply(b, second) == Account(CENT, Some(CENT));
    var ops := [first, second];
    assert ops[1..] == [second] && ops[1..][1..] == [];
  }

  /** When an embedding batch passes the budget the crossing is reported and nobody is told. */
  lemma NoAlertByEmbedding()
    ensures var a := Account(0, Some(CENT));
            var ops := [Spend(Embedding, EmbeddingCost("openai", "text-embedding-3-small", 500_000)),
                        Spend(Generation, GenerationCost("openai", "gpt-4o-mini", 4, 0))];
            Over(After(a, ops)) && Crossings(a, ops) == 1 && Alerts(a, ops) == 0
  {
    var a := Account(0, Some(CENT));
    var first, second := Spend(Embedding, CENT), Spend(Generation, 60);
    var ops := [first, second];
    assert Apply(a, first) == Account(CENT, Some(CENT));
    assert ops[1..] == [second] && ops[1..][1..] == [];
  }

  // ---- Overlapping transactions ----

  /** What a transaction saw: the month-to-date total, and which transactions had committed. */
  datatype View = View(prior: nat, committed: set<nat>)

  datatype TxStep = Read(id: nat) | Commit(id: nat) | Abort(id: nat)

  /**
   Transactions that have read the total are open until they commit or abort.
   `peak` is the largest number that were open at once.
   */
  datatype World = World(total: nat, open: map<nat, View>, done: map<nat, View>, peak: nat)

  function Max(a: nat, b: nat): nat {
    if a >= b then a else b
  }

  /** A step that is not possible changes nothing; `costs[id]` is what transaction `id` spends. */
  function TxNext(w: World, costs: seq<nat>, step: TxStep): World {
    match step
    case Read(id) =>
      if id < |costs| && id !in w.open && id !in w.done then
        var open := w.open[id := View(w.total, w.done.Keys)];
        w.(open := open, peak := Max(w.peak, |open|))
      else w
    case Commit(id) =>
      if id < |costs| && id in w.open then
        w.(total := w.total + Rounded(costs[id]), open := w.open - {id}, done := w.done[id := w.open[id]])
      else w
    case Abort(id) => w.(open := w.open - {id})
  }

  function TxRun(w: World, costs: seq<nat>, steps: seq<TxStep>): World {
    if steps == [] then w
    else TxNext(TxRun(w, costs, steps[..|steps| - 1]), costs, steps[|steps| - 1])
  }

  function Opening(total: nat): World {
    World(total, map[], map[], 0)
  }

  /** Transaction `id` of `m` reports a crossing, given what it saw. */
  predicate IsCrosser(m: map<nat, View>, id: nat, costs: seq<nat>, budget: nat) {
    id in m && id < |costs| && Crosses(Account(m[id].prior, Some(budget)), costs[id])
  }

  ghost function Crossers(m: map<nat, View>, costs: seq<nat>, budget: nat): set<nat> {
    set id | id in m && IsCrosser(m, id, costs, budget)
  }

  /** Whoever read after a crosser committed saw a total at or over the budget. */
  ghost predicate ViewOk(v: View, w: World, costs: seq<nat>, budget: nat) {
    && v.prior % MICRO == 0 && v.prior <= w.total
    && v.committed <= w.done.Keys
    && forall c | c in v.committed :: IsCrosser(w.done, c, costs, budget) ==> v.prior >= budget
  }

  ghost predicate Consistent(w: World, costs: seq<nat>, budget: nat) {
    && w.total % MICRO == 0
    && w.open.Keys !! w.done.Keys
    && (forall id | id in w.open :: ViewOk(w.open[id], w, costs, budget))
    && (forall id | id in w.done :: ViewOk(w.done[id], w, costs, budget))
    && (forall id | id in w.done :: IsCrosser(w.done, id, costs, budget) ==> w.total >= budget)
  }

  lemma ReadConsistent(w: World, costs: seq<nat>, id: nat, budget: nat)
    requires Consistent(w, costs, budget)
    ensures Consistent(TxNext(w, costs, Read(id)), costs, budget)
  {
    var w' := TxNext(w, costs, Read(id));
    forall x | x in w'.open ensures ViewOk(w'.open[x], w', costs, budget) {
      assert x in w.open ==> ViewOk(w.open[x], w, costs, budget);
    }
    forall x | x in w'.done ensures ViewOk(w'.done[x], w', costs, budget) {
      assert ViewOk(w.done[x], w, costs, budget);
    }
  }

  /** Whoever saw nothing of `id` is not affected by its commit. */
  lemma CommitKeepsView(v: View, w: World, costs: seq<nat>, id: nat, budget: nat)
    requires ViewOk(v, w, costs, budget) && w.open.Keys !! w.done.Keys
    ensures ViewOk(v, TxNext(w, costs, Commit(id)), costs, budget)
  {
    var w' := TxNext(w, costs, Commit(id));
    forall c | c in v.committed && IsCrosser(w'.done, c, costs, budget) ensures v.prior >= budget {
      assert IsCrosser(w.done, c, costs, budget);
    }
  }

  lemma {:induction false} CommitViews(w: World, costs: seq<nat>, id: nat, budget: nat)
    requires Consistent(w, costs, budget)
    ensures var w' := TxNext(w, costs, Commit(id));
            && (forall x | x in w'.open :: ViewOk(w'.open[x], w', costs, budget))
            && (forall x | x in w'.done :: ViewOk(w'.done[x], w', costs, budget))
  {
    var w' := TxNext(w, costs, Commit(id));
    forall x | x in w'.open ensures ViewOk(w'.open[x], w', costs, budget) {
      CommitKeepsView(w.open[x], w, costs, id, budget);
    }
    forall x | x in w'.done ensures ViewOk(w'.done[x], w', costs, budget) {
      CommitKeepsView(if x in w.done then w.done[x] else w.open[x], w, costs, id, budget);
    }
  }

  lemma GridSum(a: nat, b: nat)
    requires a % MICRO == 0 && b % MICRO == 0
    ensures (a + b) % MICRO == 0
  {
  }

  lemma CommitCrossers(w: World, costs: seq<nat>, id: nat, budget: nat, x: nat)
    requires Consistent(w, costs, budget) && budget % CENT == 0 && id in w.open && id < |costs|
    requires IsCrosser(TxNext(w, costs, Commit(id)).done, x, costs, budget)
    ensures w.total + Rounded(costs[id]) >= budget
  {
    if x != id {
      assert IsCrosser(w.done, x, costs, budget);
    } else {
      assert IsCrosser(w.open, x, costs, budget);
      CommitReaches(w, costs, x, budget);
    }
  }

  lemma CommitConsistent(w: World, costs: seq<nat>, id: nat, budget: nat)
    requires Consistent(w, costs, budget) && budget % CENT == 0
    ensures Consistent(TxNext(w, costs, Commit(id)), costs, budget)
  {
    if id < |costs| && id in w.open {
      var w' := TxNext(w, costs, Commit(id));
      CommitViews(w, costs, id, budget);
      GridSum(w.total, Rounded(costs[id]));
      forall x | x in w'.done && IsCrosser(w'.done, x, costs, budget) ensures w'.total >= budget {
        CommitCrossers(w, costs, id, budget, x);
      }
    }
  }

  lemma CommitReaches(w: World, costs: seq<nat>, id: nat, budget: nat)
    requires Consistent(w, costs, budget) && budget % CENT == 0 && id in w.open && IsCrosser(w.open, id, costs, budget)
    ensures w.total + Rounded(costs[id]) >= budget
  {
    assert ViewOk(w.open[id], w, costs, budget);
    CrossingReachesBudget(Account(w.open[id].prior, Some(budget)), costs[id]);
  }

  lemma {:induction false} AbortConsistent(w: World, costs: seq<nat>, id: nat, budget: nat)
    requires Consistent(w, costs, budget)
    ensures Consistent(TxNext(w, costs, Abort(id)), costs, budget)
  {
    forall x | x in w.open ensures ViewOk(w.open[x], TxNext(w, costs, Abort(id)), costs, budget) {
    }
  }

  lemma {:induction false} RunConsistent(costs: seq<nat>, steps: seq<TxStep>, start: nat, budget: nat)
    requires start % MICRO == 0 && budget % CENT == 0
    ensures Consistent(TxRun(Opening(start), costs, steps), costs, budget)
  {
    if steps != [] {
      RunConsistent(costs, steps[..|steps| - 1], start, budget);
      var w := TxRun(Opening(start), costs, steps[..|steps| - 1]);
      match steps[|steps| - 1]
      case Read(id) => ReadConsistent(w, costs, id, budget);
      case Commit(id) => CommitConsistent(w, costs, id, budget);
      case Abort(id) => AbortConsistent(w, costs, id, budget);
    }
  }

  /**
   Two committed transactions that both report a crossing overlapped: neither had
   committed when the other read the total.
   */
  lemma {:induction false} CrossersOverlap(costs: seq<nat>, steps: seq<TxStep>, start: nat, budget: nat, a: nat, b: nat)
    requires start % MICRO == 0 && budget % CENT == 0
    requires var w := TxRun(Opening(start), costs, steps);
             IsCrosser(w.done, a, costs, budget) && IsCrosser(w.done, b, costs, budget)
    ensures var w := TxRun(Opening(start), costs, steps);
            a !in w.done[b].committed && b !in w.done[a].committed
  {
    RunConsistent(costs, steps, start, budget);
    var w := TxRun(Opening(start), costs, steps);
    assert ViewOk(w.done[a], w, costs, budget) && ViewOk(w.done[b], w, costs, budget);
  }

  // ---- How many can overlap ----

  ghost function AllCrossers(w: World, costs: seq<nat>, budget: nat): set<nat> {
    Crossers(w.open, costs, budget) + Crossers(w.done, costs, budget)
  }

  ghost predicate PeakBounds(w: World, costs: seq<nat>, budget: nat) {
    |w.open| <= w.peak && |AllCrossers(w, costs, budget)| <= w.peak
  }

  /** While the total is under the budget all crossers are still open. */
  lemma UnderMeansOpen(w: World, costs: seq<nat>, budget: nat)
    requires Consistent(w, costs, budget) && w.total < budget
    ensures AllCrossers(w, costs, budget) <= w.open.Keys
  {
    forall x | x in AllCrossers(w, costs, budget) ensures x in w.open {
      CrosserIn(w, costs, budget, x);
      assert !IsCrosser(w.done, x, costs, budget);
    }
  }

  lemma {:induction false} SubsetSize(a: set<nat>, b: set<nat>)
    requires a <= b
    ensures |a| <= |b|
    decreases a
  {
    if a != {} {
      var x :| x in a;
      SubsetSize(a - {x}, b - {x});
    }
  }

  lemma CrosserIn(w: World, costs: seq<nat>, budget: nat, x: nat)
    ensures x in AllCrossers(w, costs, budget) <==>
              IsCrosser(w.open, x, costs, budget) || IsCrosser(w.done, x, costs, budget)
  {
  }

  lemma ReadPeak(w: World, costs: seq<nat>, id: nat, budget: nat)
    requires Consistent(w, costs, budget) && PeakBounds(w, costs, budget)
    ensures PeakBounds(TxNext(w, costs, Read(id)), costs, budget)
  {
    var w' := TxNext(w, costs, Read(id));
    if w' != w {
      var before, after := AllCrossers(w, costs, budget), AllCrossers(w', costs, budget);
      forall x | x in after ensures x in before || (x == id && w.total < budget) {
        CrosserIn(w, costs, budget, x);
        CrosserIn(w', costs, budget, x);
      }
      if w.total < budget {
        ReadConsistent(w, costs, id, budget);
        UnderMeansOpen(w', costs, budget);
        SubsetSize(after, w'.open.Keys);
      } else {
        SubsetSize(after, before);
      }
    }
  }

  lemma CommitPeak(w: World, costs: seq<nat>, id: nat, budget: nat)
    requires PeakBounds(w, costs, budget)
    ensures PeakBounds(TxNext(w, costs, Commit(id)), costs, budget)
  {
    var w' := TxNext(w, costs, Commit(id));
    if w' != w {
      SubsetSize(w'.open.Keys, w.open.Keys);
      forall x | x in AllCrossers(w', costs, budget) ensures x in AllCrossers(w, costs, budget) {
        assert x == id ==> IsCrosser(w.open, x, costs, budget);
        assert x != id ==> IsCrosser(w.open, x, costs, budget) || IsCrosser(w.done, x, costs, budget);
      }
      SubsetSize(AllCrossers(w', costs, budget), AllCrossers(w, costs, budget));
    }
  }

  lemma AbortPeak(w: World, costs: seq<nat>, id: nat, budget: nat)
    requires PeakBounds(w, costs, budget)
    ensures PeakBounds(TxNext(w, costs, Abort(id)), costs, budget)
  {
    var w' := TxNext(w, costs, Abort(id));
    SubsetSize(w'.open.Keys, w.open.Keys);
    forall x | x in AllCrossers(w', costs, budget) ensures x in AllCrossers(w, costs, budget) {
      assert IsCrosser(w.open, x, costs, budget) || IsCrosser(w.done, x, costs, budget);
    }
    SubsetSize(AllCrossers(w', costs, budget), AllCrossers(w, costs, budget));
  }

  lemma {:induction false} RunPeak(costs: seq<nat>, steps: seq<TxStep>, start: nat, budget: nat)
    requires start % MICRO == 0 && budget % CENT == 0
    ensures PeakBounds(TxRun(Opening(start), costs, steps), costs, budget)
  {
    if steps != [] {
      var w := TxRun(Opening(start), costs, steps[..|steps| - 1]);
      RunPeak(costs, steps[..|steps| - 1], start, budget);
      RunConsistent(costs, steps[..|steps| - 1], start, budget);
      match steps[|steps| - 1]
      case Read(id) => ReadPeak(w, costs, id, budget);
      case Commit(id) => CommitPeak(w, costs, id, budget);
      case Abort(id) => AbortPeak(w, costs, id, budget);
    }
  }

  /** No more alerts than transactions that were open at the same time. */
  lemma AlertsBoundedByConcurrency(costs: seq<nat>, steps: seq<TxStep>, start: nat, budget: nat)
    requires start % MICRO == 0 && budget % CENT == 0
    ensures var w := TxRun(Opening(start), costs, steps);
            |Crossers(w.done, costs, budget)| <= w.peak
  {
    RunPeak(costs, steps, start, budget);
    var w := TxRun(Opening(start), costs, steps);
    SubsetSize(Crossers(w.done, costs, budget), AllCrossers(w, costs, budget));
  }

  /** What a transaction sees, what its commit adds, and that an abort adds nothing. */
  lemma TransactionExact(w: World, costs: seq<nat>, id: nat)
    ensures var read := TxNext(w, costs, Read(id));
            id < |costs| && id !in w.open && id !in w.done ==>
              id in read.open && read.open[id] == View(w.total, w.done.Keys) && read.total == w.total
    ensures var commit := TxNext(w, costs, Commit(id));
            id < |costs| && id in w.open ==>
              && commit.total == w.total + Rounded(costs[id]) && id !in commit.open
              && id in commit.done && commit.done[id] == w.open[id]
    ensures var abort := TxNext(w, costs, Abort(id));
            && abort.total == w.total && abort.done == w.done
            && forall x ::
                 (x in abort.open <==> x in w.open && x != id) && (x in abort.open ==> abort.open[x] == w.open[x])
  {
  }

  /** How many transactions are open after `i` steps. */
  function OpenAfter(costs: seq<nat>, steps: seq<TxStep>, start: nat, i: nat): nat
    requires i <= |steps|
  {
    |TxRun(Opening(start), costs, steps[..i]).open|
  }

  lemma Fewer(open: map<nat, View>, id: nat)
    ensures |open - {id}| <= |open|
  {
    assert (open - {id}).Keys == open.Keys - {id};
    assert |open - {id}| == |(open - {id}).Keys| && |open| == |open.Keys|;
  }

  lemma OpenGrows(w: World, costs: seq<nat>, step: TxStep)
    requires |w.open| <= w.peak
    ensures var w' := TxNext(w, costs, step);
            |w'.open| <= w'.peak && w.peak <= w'.peak && (w'.peak > w.peak ==> |w'.open| == w'.peak)
  {
    match step
    case Commit(id) => Fewer(w.open, id);
    case Abort(id) => Fewer(w.open, id);
    case Read(id) =>
  }

  lemma PeakNow(costs: seq<nat>, steps: seq<TxStep>, start: nat)
    ensures steps[..|steps|] == steps
    ensures OpenAfter(costs, steps, start, |steps|) == |TxRun(Opening(start), costs, steps).open|
    ensures steps != [] ==>
              forall i | 0 <= i < |steps| ::
                OpenAfter(costs, steps, start, i) == OpenAfter(costs, steps[..|steps| - 1], start, i)
  {
    assert steps[..|steps|] == steps;
    forall i | steps != [] && 0 <= i < |steps|
      ensures OpenAfter(costs, steps, start, i) == OpenAfter(costs, steps[..|steps| - 1], start, i)
    {
      assert steps[..|steps| - 1][..i] == steps[..i];
    }
  }

  /** `peak` is the largest number of transactions that were open at once. */
  lemma {:induction false} PeakExact(costs: seq<nat>, steps: seq<TxStep>, start: nat) returns (at: nat)
    ensures at <= |steps| && OpenAfter(costs, steps, start, at) == TxRun(Opening(start), costs, steps).peak
    ensures forall i | 0 <= i <= |steps| ::
              OpenAfter(costs, steps, start, i) <= TxRun(Opening(start), costs, steps).peak
  {
    PeakNow(costs, steps, start);
    at := 0;
    if steps != [] {
      var before, step := steps[..|steps| - 1], steps[|steps| - 1];
      at := PeakExact(costs, before, start);
      PeakNow(costs, before, start);
      var w := TxRun(Opening(start), costs, before);
      OpenGrows(w, costs, step);
      if TxNext(w, costs, step).peak > w.peak {
        at := |steps|;
      }
    }
  }

  // ---- As many alerts as there are open transactions ----

  function Reads(n: nat): seq<TxStep> {
    if n == 0 then [] else Reads(n - 1) + [Read(n - 1)]
  }

  function Commits(n: nat): seq<TxStep> {
    if n == 0 then [] else Commits(n - 1) + [Commit(n - 1)]
  }

  /** Transactions 0, ..., n - 1 have all read an empty month, and the first `k` of them have committed. */
  ghost predicate Overlapping(w: World, n: nat, k: nat) {
    && w.peak == n && (k == 0 ==> w.total == 0 && |w.open| == n)
    && (forall id: nat :: id in w.open <==> k <= id < n)
    && (forall id: nat :: id in w.done <==> id < k)
    && (forall id | id in w.open :: w.open[id] == View(0, {}))
    && (forall id | id in w.done :: w.done[id] == View(0, {}))
  }

  lemma OneMoreRead(w: World, costs: seq<nat>, n: nat)
    requires Overlapping(w, n, 0) && n < |costs|
    ensures Overlapping(TxNext(w, costs, Read(n)), n + 1, 0)
  {
    assert w.done.Keys == {};
  }

  lemma OneMoreCommit(w: World, costs: seq<nat>, n: nat, k: nat)
    requires Overlapping(w, n, k) && k < n <= |costs|
    ensures Overlapping(TxNext(w, costs, Commit(k)), n, k + 1)
  {
  }

  lemma TxRunSnoc(w: World, costs: seq<nat>, steps: seq<TxStep>, step: TxStep)
    ensures TxRun(w, costs, steps + [step]) == TxNext(TxRun(w, costs, steps), costs, step)
  {
    assert (steps + [step])[..|steps|] == steps;
  }

  lemma {:induction false} AfterReads(costs: seq<nat>, n: nat)
    requires n <= |costs|
    ensures Overlapping(TxRun(Opening(0), costs, Reads(n)), n, 0)
  {
    if n > 0 {
      AfterReads(costs, n - 1);
      TxRunSnoc(Opening(0), costs, Reads(n - 1), Read(n - 1));
      OneMoreRead(TxRun(Opening(0), costs, Reads(n - 1)), costs, n - 1);
    }
  }

  lemma {:induction false} AfterCommits(costs: seq<nat>, n: nat, k: nat)
    requires k <= n <= |costs|
    ensures Overlapping(TxRun(Opening(0), costs, Reads(n) + Commits(k)), n, k)
  {
    if k == 0 {
      AfterReads(costs, n);
      assert Reads(n) + Commits(0) == Reads(n);
    } else {
      var before := Reads(n) + Commits(k - 1);
      AfterCommits(costs, n, k - 1);
      RunOneMoreCommit(costs, before, n, k - 1);
      CommitsSnoc(Reads(n), k);
    }
  }

  lemma RunOneMoreCommit(costs: seq<nat>, steps: seq<TxStep>, n: nat, k: nat)
    requires Overlapping(TxRun(Opening(0), costs, steps), n, k) && k < n <= |costs|
    ensures Overlapping(TxRun(Opening(0), costs, steps + [Commit(k)]), n, k + 1)
  {
    TxRunSnoc(Opening(0), costs, steps, Commit(k));
    OneMoreCommit(TxRun(Opening(0), costs, steps), costs, n, k);
  }

  lemma CommitsSnoc(before: seq<TxStep>, k: nat)
    requires k > 0
    ensures before + Commits(k) == (before + Commits(k - 1)) + [Commit(k - 1)]
  {
  }

  /**
   The bound is reached: `n` overlapping transactions that each cost at least the
   budget all report a crossing.
   */
  lemma {:induction false} AlertsReachConcurrency(costs: seq<nat>, budget: nat)
    requires budget > 0 && forall c | c in costs :: c >= budget
    ensures var n := |costs|;
            var w := TxRun(Opening(0), costs, Reads(n) + Commits(n));
            w.peak == n && forall id: nat :: id in Crossers(w.done, costs, budget) <==> id < n
  {
    var n := |costs|;
    AfterCommits(costs, n, n);
    var w := TxRun(Opening(0), costs, Reads(n) + Commits(n));
    forall id: nat | id < n ensures IsCrosser(w.done, id, costs, budget) {
      assert id in w.done && costs[id] in costs;
    }
  }
}
