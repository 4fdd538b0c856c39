/** The result summary (app.py:65-66 and 113): the largest profit on the
    display grid, the grid quantity at its first arg-max, and each
    break-even quantity paired with the fitted price there. */
module Summary {

  /** `np.max(profit)`. */
  function Max(p: seq<real>): (m: real)
    requires |p| > 0
    ensures m in p
    ensures forall j :: 0 <= j < |p| ==> p[j] <= m
  {
    if |p| == 1 then p[0]
    else
      var rest := Max(p[..|p| - 1]);
      assert forall j :: 0 <= j < |p| - 1 ==> p[..|p| - 1][j] == p[j];
      if p[|p| - 1] > rest then p[|p| - 1] else rest
  }

  /** `np.argmax(profit)`: the first index holding the maximum. */
  function FirstArgMax(p: seq<real>): (k: nat)
    requires |p| > 0
    ensures k < |p|
    ensures forall j :: 0 <= j < |p| ==> p[j] <= p[k]
    ensures forall j :: 0 <= j < k ==> p[j] < p[k]
  {
    if |p| == 1 then 0
    else
      var k := FirstArgMax(p[..|p| - 1]);
      assert forall j :: 0 <= j < |p| - 1 ==> p[..|p| - 1][j] == p[j];
      if p[|p| - 1] > p[k] then |p| - 1 else k
  }

  /** `max_profit` and the profit at `np.argmax` agree: `np.max` and
      `np.argmax` describe the same sample. */
  lemma MaxAtFirstArgMax(p: seq<real>)
    requires |p| > 0
    ensures Max(p) == p[FirstArgMax(p)]
  {
    var k := FirstArgMax(p);
    var m := Max(p);
    var j :| 0 <= j < |p| && p[j] == m;
  }

  /** The first arg-max is determined by its two properties. */
  lemma FirstArgMaxUnique(p: seq<real>, k: nat)
    requires k < |p|
    requires forall j :: 0 <= j < |p| ==> p[j] <= p[k]
    requires forall j :: 0 <= j < k ==> p[j] < p[k]
    ensures k == FirstArgMax(p)
  {
  }

  /** One pass over the profit series that keeps the first best sample. */
  method LocateMaxProfit(profit: seq<real>) returns (maxProfit: real, k: nat)
    requires |profit| > 0
    ensures k == FirstArgMax(profit)
    ensures maxProfit == Max(profit) == profit[k]
  {
    k := 0;
    var i := 1;
    while i < |profit|
      invariant 1 <= i <= |profit|
      invariant k < i
      invariant forall j :: 0 <= j < i ==> profit[j] <= profit[k]
      invariant forall j :: 0 <= j < k ==> profit[j] < profit[k]
    {
      if profit[i] > profit[k] {
        k := i;
      }
      i := i + 1;
    }
    maxProfit := profit[k];
    FirstArgMaxUnique(profit, k);
    MaxAtFirstArgMax(profit);
  }

  /** `[(q, nonlinear_price_model(q, *popt_price)) for q in break_even_points]`:
      the price is evaluated at the break-even quantity itself, with no
      epsilon substitution. */
  function PricedPoints(points: seq<real>, price: real -> real): (pairs: seq<(real, real)>)
    ensures |pairs| == |points|
    ensures forall i :: 0 <= i < |points| ==> pairs[i].0 == points[i] && pairs[i].1 == price(points[i])
  {
    seq(|points|, i requires 0 <= i < |points| => (points[i], price(points[i])))
  }

  /** The summary shown to the user. */
  datatype ProfitSummary = ProfitSummary(maxProfit: real, qMaxProfit: real, breakEven: seq<(real, real)>)

  /** `max_profit`, `Q_max_profit` and the priced break-even list. */
  function Summarize(qSim: seq<real>, profit: seq<real>, points: seq<real>, price: real -> real): (s: ProfitSummary)
    requires |qSim| == |profit| > 0
    ensures forall j :: 0 <= j < |profit| ==> profit[j] <= s.maxProfit
    ensures exists k :: 0 <= k < |profit| && s.maxProfit == profit[k] && s.qMaxProfit == qSim[k]
                        && forall j :: 0 <= j < k ==> profit[j] < profit[k]
    ensures |s.breakEven| == |points|
    ensures forall i :: 0 <= i < |points| ==> s.breakEven[i] == (points[i], price(points[i]))
  {
    MaxAtFirstArgMax(profit);
    ProfitSummary(Max(profit), qSim[FirstArgMax(profit)], PricedPoints(points, price))
  }
}
