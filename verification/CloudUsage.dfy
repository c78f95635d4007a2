/** Token totals and their price, rounded to four decimals at every step. Exact prices are counted in
    millionths of a dollar and rounded ones in units of 0.0001 dollars, so one unit is 100 millionths. */
module CloudUsage {
  import opened Basics

  datatype CostStatus = Unknown | Estimated | Actual

  datatype Usage = Usage(inputTokens: int, outputTokens: int, costStatus: CostStatus)

  const NO_USAGE := Usage(0, 0, Unknown)

  /** 3 dollars per million input tokens, 15 per million output tokens. */
  function ExactPrice(inputTokens: int, outputTokens: int): int {
    3 * inputTokens + 15 * outputTokens
  }

  /** round(x, 4): to the nearest unit, a tie to the even one. */
  function Round4(x: int): (r: int)
    ensures -50 <= 100 * r - x <= 50
    ensures 100 * r - x == 50 || 100 * r - x == -50 ==> r % 2 == 0
  {
    var q, rest := x / 100, x % 100;
    if rest < 50 || (rest == 50 && q % 2 == 0) then q else q + 1
  }

  lemma WholeUnitsStay(units: int)
    ensures Round4(100 * units) == units
  {
  }

  function CostUsd(u: Usage): int {
    Round4(ExactPrice(u.inputTokens, u.outputTokens))
  }

  function Rank(s: CostStatus): int {
    match s
    case Unknown => 0
    case Estimated => 1
    case Actual => 2
  }

  function CombinedCostStatus(left: CostStatus, right: CostStatus): CostStatus {
    if Rank(left) >= Rank(right) then left else right
  }

  function Add(a: Usage, b: Usage): Usage {
    Usage(a.inputTokens + b.inputTokens, a.outputTokens + b.outputTokens,
          CombinedCostStatus(a.costStatus, b.costStatus))
  }

  /** A million input tokens cost three dollars, a million output tokens fifteen. */
  lemma PricePerMillion(n: nat)
    ensures CostUsd(Usage(1000000 * n, 0, Actual)) == 3 * 10000 * n
    ensures CostUsd(Usage(0, 1000000 * n, Actual)) == 15 * 10000 * n
  {
    WholeUnitsStay(30000 * n);
    WholeUnitsStay(150000 * n);
  }

  /** A sum is as actual as the more actual of its parts. */
  lemma CombinedStatus(a: Usage, b: Usage)
    ensures Add(a, b).costStatus == Actual <==> a.costStatus == Actual || b.costStatus == Actual
    ensures Add(a, b).costStatus == Unknown <==> a.costStatus == Unknown && b.costStatus == Unknown
  {
  }

  /** Adding usages forms a commutative monoid: their order and grouping do not matter. */
  lemma AddIsACommutativeMonoid(a: Usage, b: Usage, c: Usage)
    ensures Add(Add(a, b), c) == Add(a, Add(b, c))
    ensures Add(a, b) == Add(b, a)
    ensures Add(a, NO_USAGE) == a
  {
  }

  /** The price of a sum is within one unit of the sum of the prices. */
  lemma PriceOfSum(a: Usage, b: Usage)
    ensures -1 <= CostUsd(Add(a, b)) - (CostUsd(a) + CostUsd(b)) <= 1
  {
  }

  // ---------- Accumulating on a requirement ----------

  datatype Totals = Totals(inputTokens: int, outputTokens: int, costUsd: int)

  function ApplyUsage(t: Totals, u: Usage): Totals {
    Totals(t.inputTokens + u.inputTokens, t.outputTokens + u.outputTokens, Round4(100 * (t.costUsd + CostUsd(u))))
  }

  /** The first k usages applied in turn, from zero. */
  function Accumulated(usages: seq<Usage>, k: nat): Totals
    requires k <= |usages|
  {
    if k == 0 then Totals(0, 0, 0) else ApplyUsage(Accumulated(usages, k - 1), usages[k - 1])
  }

  /** The sum of what f gives for the first k usages. */
  function Total(f: Usage -> int, usages: seq<Usage>, k: nat): int
    requires k <= |usages|
  {
    if k == 0 then 0 else Total(f, usages, k - 1) + f(usages[k - 1])
  }

  /** Storing rounds a whole number of units, so the stored cost is the sum of the priced usages, and the
      token totals are exact. */
  lemma {:induction false} StoredTotalsAreSums(usages: seq<Usage>, k: nat)
    requires k <= |usages|
    ensures Accumulated(usages, k) == Totals(Total((u: Usage) => u.inputTokens, usages, k),
                                             Total((u: Usage) => u.outputTokens, usages, k),
                                             Total(CostUsd, usages, k))
  {
    if k > 0 {
      StoredTotalsAreSums(usages, k - 1);
      WholeUnitsStay(Accumulated(usages, k - 1).costUsd + CostUsd(usages[k - 1]));
    }
  }

  function ExactPriceOf(u: Usage): int {
    ExactPrice(u.inputTokens, u.outputTokens)
  }

  /** f, in units, is within half a unit of g, in millionths. */
  predicate Close(f: Usage -> int, g: Usage -> int, u: Usage) {
    -50 <= 100 * f(u) - g(u) <= 50
  }

  lemma {:induction false} TotalsStayClose(f: Usage -> int, g: Usage -> int, usages: seq<Usage>, k: nat)
    requires k <= |usages| && forall i :: 0 <= i < |usages| ==> Close(f, g, usages[i])
    ensures -50 * k <= 100 * Total(f, usages, k) - Total(g, usages, k) <= 50 * k
  {
    if k > 0 {
      TotalsStayClose(f, g, usages, k - 1);
      assert Close(f, g, usages[k - 1]);
    }
  }

  /** After n usages the stored cost is within n * 0.00005 dollars of the exact price: storing adds nothing to
      the drift, only pricing each usage does. */
  lemma DriftIsBounded(usages: seq<Usage>)
    ensures -50 * |usages|
         <= 100 * Accumulated(usages, |usages|).costUsd - Total(ExactPriceOf, usages, |usages|)
         <= 50 * |usages|
  {
    StoredTotalsAreSums(usages, |usages|);
    TotalsStayClose(CostUsd, ExactPriceOf, usages, |usages|);
  }

  lemma {:induction false} TotalOfConstant(f: Usage -> int, c: int, usages: seq<Usage>, k: nat)
    requires k <= |usages| && forall i :: 0 <= i < |usages| ==> f(usages[i]) == c
    ensures Total(f, usages, k) == c * k
  {
    if k > 0 {
      TotalOfConstant(f, c, usages, k - 1);
      assert c * k == c * (k - 1) + c;
    }
  }

  /** The bound is reached: calls with 50 input tokens are each priced 0.0002 instead of 0.00015. */
  lemma DriftIsReached(usages: seq<Usage>)
    requires forall i :: 0 <= i < |usages| ==> usages[i].inputTokens == 50 && usages[i].outputTokens == 0
    ensures 100 * Accumulated(usages, |usages|).costUsd - Total(ExactPriceOf, usages, |usages|) == 50 * |usages|
  {
    StoredTotalsAreSums(usages, |usages|);
    assert Round4(150) == 2;
    TotalOfConstant(CostUsd, 2, usages, |usages|);
    TotalOfConstant(ExactPriceOf, 150, usages, |usages|);
  }

  /** The exact price is that of the token totals. */
  lemma {:induction false} ExactPriceOfTotals(usages: seq<Usage>, k: nat)
    requires k <= |usages|
    ensures var t := Accumulated(usages, k);
            Total(ExactPriceOf, usages, k) == ExactPrice(t.inputTokens, t.outputTokens)
  {
    if k > 0 {
      ExactPriceOfTotals(usages, k - 1);
    }
  }
}
