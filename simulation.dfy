/** The simulation step of the request handler (app.py:52-63) over a display
    grid supplied by the caller: copy the grid, overwrite its zero entries
    with a small epsilon in place, evaluate the price curve on the safe
    grid, and form revenue, cost and profit index by index. Cost is taken at
    the unsubstituted quantities. */
module Simulation {
  import CostModels

  /** The value zero quantities are replaced with before price evaluation. */
  const Epsilon: real := 1.0e-6

  /** `Q_sim_safe` as a value: the grid with every zero replaced by
      `Epsilon` and every other entry kept. It contains no zero. */
  function SafeGrid(qs: seq<real>): (safe: seq<real>)
    ensures |safe| == |qs|
    ensures forall i :: 0 <= i < |qs| ==> safe[i] != 0.0
    ensures forall i :: 0 <= i < |qs| ==> safe[i] == (if qs[i] == 0.0 then Epsilon else qs[i])
  {
    seq(|qs|, i requires 0 <= i < |qs| => if qs[i] == 0.0 then Epsilon else qs[i])
  }

  /** Substituting a second time changes nothing. */
  lemma SafeGridIdempotent(qs: seq<real>)
    ensures SafeGrid(SafeGrid(qs)) == SafeGrid(qs)
  {
    var once := SafeGrid(qs);
    assert forall i :: 0 <= i < |qs| ==> SafeGrid(once)[i] == once[i];
  }

  /** `Q_sim_safe[Q_sim_safe == 0] = 1e-6`: the masked assignment, in place. */
  method ReplaceZeros(a: array<real>)
    modifies a
    ensures a[..] == SafeGrid(old(a[..]))
  {
    var i := 0;
    while i < a.Length
      invariant 0 <= i <= a.Length
      invariant forall k :: 0 <= k < i ==> a[k] == SafeGrid(old(a[..]))[k]
      invariant forall k :: i <= k < a.Length ==> a[k] == old(a[k])
    {
      if a[i] == 0.0 {
        a[i] := Epsilon;
      }
      i := i + 1;
    }
  }

  /** The simulated series over one grid, all index-aligned with `q`. */
  datatype Series = Series(
    q: seq<real>,       // Q_sim
    safe: seq<real>,    // Q_sim_safe
    price: seq<real>,   // P_sim
    tr: seq<real>,      // TR
    tc: seq<real>,      // TC_sim
    profit: seq<real>)  // profit

  /** The simulation as a value (app.py:58-63) for the fitted price curve and
      quadratic cost coefficients `a`, `b`, `c`. */
  function ProfitSeries(qs: seq<real>, price: real -> real, a: real, b: real, c: real): (s: Series)
    ensures s.q == qs && s.safe == SafeGrid(qs)
    ensures |s.price| == |s.tr| == |s.tc| == |s.profit| == |qs|
    ensures forall i :: 0 <= i < |qs| ==>
              && s.price[i] == price(s.safe[i])
              && s.tr[i] == CostModels.Revenue(price, s.safe[i])
              && s.tc[i] == CostModels.Quadratic(qs[i], a, b, c)
    ensures forall i :: 0 <= i < |qs| ==>
              s.profit[i] == CostModels.Revenue(price, s.safe[i]) - CostModels.Quadratic(qs[i], a, b, c)
  {
    var safe := SafeGrid(qs);
    var p := seq(|qs|, i requires 0 <= i < |qs| => price(safe[i]));
    var tr := seq(|qs|, i requires 0 <= i < |qs| => p[i] * safe[i]);
    var tc := CostModels.QuadraticCurve(qs, a, b, c);
    var profit := seq(|qs|, i requires 0 <= i < |qs| => tr[i] - tc[i]);
    Series(qs, safe, p, tr, tc, profit)
  }

  /** Profit away from zero is plain revenue minus cost; at zero quantity the
      revenue is taken at `Epsilon` while the cost is the fixed cost `c`. */
  lemma ProfitAt(qs: seq<real>, price: real -> real, a: real, b: real, c: real, i: nat)
    requires i < |qs|
    ensures qs[i] != 0.0 ==>
              ProfitSeries(qs, price, a, b, c).profit[i]
                == CostModels.Revenue(price, qs[i]) - CostModels.Quadratic(qs[i], a, b, c)
    ensures qs[i] == 0.0 ==>
              ProfitSeries(qs, price, a, b, c).profit[i] == price(Epsilon) * Epsilon - c
  {
  }

  /** The display simulation as steps over arrays: copy the grid, replace its
      zeros in place, then derive price, revenue, cost and profit. */
  method Simulate(qSim: seq<real>, price: real -> real, a: real, b: real, c: real) returns (s: Series)
    ensures s == ProfitSeries(qSim, price, a, b, c)
  {
    var n := |qSim|;
    var safeArray := new real[n](i requires 0 <= i < n => qSim[i]);
    assert safeArray[..] == qSim;
    ReplaceZeros(safeArray);
    var safe := safeArray[..];
    var p := seq(n, i requires 0 <= i < n => price(safe[i]));
    var tr := seq(n, i requires 0 <= i < n => p[i] * safe[i]);
    var tc := CostModels.QuadraticCurve(qSim, a, b, c);
    var profit := seq(n, i requires 0 <= i < n => tr[i] - tc[i]);
    s := Series(qSim, safe, p, tr, tc, profit);
  }
}
