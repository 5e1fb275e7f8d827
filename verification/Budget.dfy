/** The budget tracker: saturating counters checked against fixed caps. */
module Budget {
  import opened Contracts

  const U64_MAX: nat := 0xFFFF_FFFF_FFFF_FFFF

  type U64 = n: nat | n <= U64_MAX

  datatype BudgetContract = BudgetContract(maxTokens: U64, maxCostUsd: real, maxLatencyMs: U64)

  datatype BudgetError = Tokens(budget: U64) | Cost(budgetUsd: real) | Time(budgetMs: U64)

  datatype BudgetState = BudgetState(initial: BudgetContract, usedTokens: U64, usedCost: real, usedMs: U64)

  datatype Charge = Charge(tokens: U64, costUsd: real, elapsedMs: U64)

  function SaturatingAdd(a: U64, b: U64): U64 {
    if a + b <= U64_MAX then a + b else U64_MAX
  }

  function SaturatingSub(a: U64, b: U64): U64 {
    if a >= b then a - b else 0
  }

  function Fresh(budget: BudgetContract): BudgetState {
    BudgetState(budget, 0, 0.0, 0)
  }

  /** The counters after a charge; they move even when the charge is refused. */
  function After(s: BudgetState, c: Charge): BudgetState {
    s.(usedTokens := SaturatingAdd(s.usedTokens, c.tokens),
       usedCost := s.usedCost + c.costUsd,
       usedMs := SaturatingAdd(s.usedMs, c.elapsedMs))
  }

  /** The first exhausted dimension, tokens before cost before time. */
  function Verdict(s: BudgetState): Option<BudgetError> {
    if s.usedTokens > s.initial.maxTokens then Some(Tokens(s.initial.maxTokens))
    else if s.usedCost > s.initial.maxCostUsd then Some(Cost(s.initial.maxCostUsd))
    else if s.usedMs > s.initial.maxLatencyMs then Some(Time(s.initial.maxLatencyMs))
    else None
  }

  /** A charge is accepted exactly when all three counters are within their caps; otherwise the first exhausted
      dimension is reported with its cap, tokens before cost before time. */
  lemma VerdictExactly(s: BudgetState)
    ensures var b := s.initial;
            && (Verdict(s) == None <==>
                  s.usedTokens <= b.maxTokens && s.usedCost <= b.maxCostUsd && s.usedMs <= b.maxLatencyMs)
            && (Verdict(s) == Some(Tokens(b.maxTokens)) <==> s.usedTokens > b.maxTokens)
            && (Verdict(s) == Some(Cost(b.maxCostUsd)) <==> s.usedTokens <= b.maxTokens && s.usedCost > b.maxCostUsd)
            && (Verdict(s) == Some(Time(b.maxLatencyMs)) <==>
                  s.usedTokens <= b.maxTokens && s.usedCost <= b.maxCostUsd && s.usedMs > b.maxLatencyMs)
  {
  }

  /** In every dimension what remains tops up what is used to the initial budget, and is zero beyond it. */
  lemma RemainingExactly(s: BudgetState)
    ensures var r, b := Remaining(s), s.initial;
            && (if s.usedTokens <= b.maxTokens then r.maxTokens + s.usedTokens == b.maxTokens else r.maxTokens == 0)
            && (if s.usedCost <= b.maxCostUsd then r.maxCostUsd + s.usedCost == b.maxCostUsd else r.maxCostUsd == 0.0)
            && (if s.usedMs <= b.maxLatencyMs then r.maxLatencyMs + s.usedMs == b.maxLatencyMs else r.maxLatencyMs == 0)
  {
  }

  function Remaining(s: BudgetState): (r: BudgetContract)
    ensures Verdict(s).None? ==>
              && r.maxTokens + s.usedTokens == s.initial.maxTokens
              && r.maxCostUsd + s.usedCost == s.initial.maxCostUsd
              && r.maxLatencyMs + s.usedMs == s.initial.maxLatencyMs
    ensures r.maxCostUsd >= 0.0
  {
    BudgetContract(
      SaturatingSub(s.initial.maxTokens, s.usedTokens),
      if s.initial.maxCostUsd - s.usedCost > 0.0 then s.initial.maxCostUsd - s.usedCost else 0.0,
      SaturatingSub(s.initial.maxLatencyMs, s.usedMs))
  }

  class BudgetTracker {
    const initial: BudgetContract
    var usedTokens: U64
    var usedCost: real
    var usedMs: U64

    ghost function State(): BudgetState
      reads this
    {
      BudgetState(initial, usedTokens, usedCost, usedMs)
    }

    constructor (budget: BudgetContract)
      ensures State() == Fresh(budget)
    {
      initial := budget;
      usedTokens, usedCost, usedMs := 0, 0.0, 0;
    }

    method ChargeBudget(tokens: U64, costUsd: real, elapsedMs: U64) returns (refused: Option<BudgetError>)
      modifies this
      ensures State() == After(old(State()), Charge(tokens, costUsd, elapsedMs))
      ensures refused == Verdict(State())
    {
      usedTokens := SaturatingAdd(usedTokens, tokens);
      usedCost := usedCost + costUsd;
      usedMs := SaturatingAdd(usedMs, elapsedMs);
      if usedTokens > initial.maxTokens { return Some(Tokens(initial.maxTokens)); }
      if usedCost > initial.maxCostUsd { return Some(Cost(initial.maxCostUsd)); }
      if usedMs > initial.maxLatencyMs { return Some(Time(initial.maxLatencyMs)); }
      return None;
    }

    method Snapshot() returns (r: BudgetContract)
      ensures r == Remaining(State())
    {
      var tokens := if initial.maxTokens >= usedTokens then initial.maxTokens - usedTokens else 0;
      var cost := initial.maxCostUsd - usedCost;
      var ms := if initial.maxLatencyMs >= usedMs then initial.maxLatencyMs - usedMs else 0;
      r := BudgetContract(tokens, if cost > 0.0 then cost else 0.0, ms);
    }
  }

  /** All the charges of a history, refused ones included. */
  function ChargeAll(s: BudgetState, cs: seq<Charge>): BudgetState {
    if cs == [] then s else After(ChargeAll(s, cs[..|cs| - 1]), cs[|cs| - 1])
  }

  function TotalTokens(cs: seq<Charge>): nat {
    if cs == [] then 0 else TotalTokens(cs[..|cs| - 1]) + cs[|cs| - 1].tokens
  }

  function TotalCost(cs: seq<Charge>): real {
    if cs == [] then 0.0 else TotalCost(cs[..|cs| - 1]) + cs[|cs| - 1].costUsd
  }

  function TotalMs(cs: seq<Charge>): nat {
    if cs == [] then 0 else TotalMs(cs[..|cs| - 1]) + cs[|cs| - 1].elapsedMs
  }

  function Capped(n: nat): U64 {
    if n <= U64_MAX then n else U64_MAX
  }

  /** The counters are the running sums, clipped at the width of the counter. */
  lemma {:induction false} UsedIsRunningSum(s: BudgetState, cs: seq<Charge>)
    ensures var t := ChargeAll(s, cs);
            && t.initial == s.initial
            && t.usedTokens == Capped(s.usedTokens + TotalTokens(cs))
            && t.usedCost == s.usedCost + TotalCost(cs)
            && t.usedMs == Capped(s.usedMs + TotalMs(cs))
    decreases |cs|
  {
    if cs != [] {
      UsedIsRunningSum(s, cs[..|cs| - 1]);
    }
  }

  ghost predicate NonNegative(cs: seq<Charge>) {
    forall i :: 0 <= i < |cs| ==> cs[i].costUsd >= 0.0
  }

  /** Once one charge was refused, every later charge is refused, as long as costs are not negative. */
  lemma {:induction false} RefusalIsPermanent(s: BudgetState, cs: seq<Charge>)
    requires Verdict(s).Some? && NonNegative(cs)
    ensures Verdict(ChargeAll(s, cs)).Some?
    decreases |cs|
  {
    if cs != [] {
      var init := cs[..|cs| - 1];
      assert forall i :: 0 <= i < |init| ==> init[i] == cs[i];
      RefusalIsPermanent(s, init);
    }
  }

  /** Whether a charge can revive an exhausted tracker depends only on the sign of its cost. */
  lemma RevivalExactly(c: Charge)
    ensures (forall s :: Verdict(s).Some? ==> Verdict(After(s, c)).Some?) <==> c.costUsd >= 0.0
  {
    if c.costUsd < 0.0 {
      var s := BudgetState(BudgetContract(U64_MAX, 0.0, U64_MAX), 0, -c.costUsd / 2.0, 0);
      assert Verdict(s) == Some(Cost(0.0));
      assert Verdict(After(s, c)).None?;
    }
  }

  /** What an accepted history spent is within the caps. */
  lemma AcceptedWithinCaps(s: BudgetState, cs: seq<Charge>)
    requires Verdict(ChargeAll(s, cs)).None?
    ensures s.initial.maxTokens < U64_MAX ==> s.usedTokens + TotalTokens(cs) <= s.initial.maxTokens
    ensures s.initial.maxLatencyMs < U64_MAX ==> s.usedMs + TotalMs(cs) <= s.initial.maxLatencyMs
    ensures s.usedCost + TotalCost(cs) <= s.initial.maxCostUsd
  {
    UsedIsRunningSum(s, cs);
  }

  /** An accepted history fits what was left at its start. */
  lemma AcceptedWithinRemaining(s: BudgetState, cs: seq<Charge>)
    requires Verdict(ChargeAll(s, cs)).None? && s.initial.maxTokens < U64_MAX
    ensures TotalTokens(cs) <= Remaining(s).maxTokens
    ensures TotalCost(cs) <= Remaining(s).maxCostUsd
  {
    AcceptedWithinCaps(s, cs);
  }

  /** An accepted history that really spent more tokens than the cap. */
  ghost predicate Overspends(b: BudgetContract, cs: seq<Charge>) {
    Verdict(ChargeAll(Fresh(b), cs)).None? && TotalTokens(cs) > b.maxTokens
  }

  lemma NoOverspending(b: BudgetContract, cs: seq<Charge>)
    requires b.maxTokens < U64_MAX
    ensures !Overspends(b, cs)
  {
    if Verdict(ChargeAll(Fresh(b), cs)).None? {
      AcceptedWithinCaps(Fresh(b), cs);
    }
  }

  /** Two charges that fill the counter twice, the first one making room for itself when the cost cap is negative. */
  lemma SaturationOverspends(b: BudgetContract)
    requires b.maxTokens == U64_MAX
    ensures Overspends(b, [Charge(U64_MAX, if b.maxCostUsd < 0.0 then b.maxCostUsd else 0.0, 0), Charge(U64_MAX, 0.0, 0)])
  {
    TwoCharges(Fresh(b), Charge(U64_MAX, if b.maxCostUsd < 0.0 then b.maxCostUsd else 0.0, 0), Charge(U64_MAX, 0.0, 0));
  }

  /** The token cap bounds what was really spent exactly when it lies below the saturation value. */
  lemma TokenCapExactly(b: BudgetContract)
    ensures (forall cs :: !Overspends(b, cs)) <==> b.maxTokens < U64_MAX
  {
    if b.maxTokens < U64_MAX {
      forall cs
        ensures !Overspends(b, cs)
      {
        NoOverspending(b, cs);
      }
    } else {
      SaturationOverspends(b);
    }
  }

  lemma TwoCharges(s: BudgetState, c: Charge, d: Charge)
    ensures ChargeAll(s, [c, d]) == After(After(s, c), d)
    ensures TotalTokens([c, d]) == c.tokens + d.tokens
  {
    assert [c, d][..1] == [c] && [c][..0] == [];
    assert ChargeAll(s, [c]) == After(s, c) && TotalTokens([c]) == c.tokens;
  }
}
