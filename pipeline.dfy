/** The request handler's computation (app.py:31-66 and 113) as one function:
    parse both text blocks, fit the three models, scan the wide grid for
    break-even points, simulate the display grid and summarise. Every
    exception the handler catches (app.py:122-123) is a `Failure` value here.

    Least-squares fitting is foreign: each `curve_fit` call is a parameter
    that maps the parsed observations to fitted parameters, or to `None`
    when the optimiser does not converge. The check that the optimiser
    makes before it starts (no fewer observations than parameters) is
    modelled explicitly. Both grids (`np.linspace(1, 2000, 2000)` for the
    scan and `np.linspace(0, q_max, 400)` for display) are supplied by the
    caller. */
module Pipeline {
  import opened Wrappers
  import Text
  import Parsing
  import CostModels
  import BreakEven
  import Simulation
  import Summary

  datatype ModelKind = LinearCost | QuadraticCost | PowerLawPrice

  datatype FitError =
    | TooFewPoints(needed: nat, got: nat)  // fewer observations than parameters
    | NotConverged                         // the optimiser gave up

  /** The exceptions of the handler, each with what raised it. */
  datatype Failure =
    | CostParse(parse: Parsing.ParseError)
    | RevenueParse(parse: Parsing.ParseError)
    | FitFailed(model: ModelKind, reason: FitError)
    | EmptyGrid  // np.max over a display grid with no samples

  /** The three `curve_fit` calls. The price fit yields the fitted curve
      Q -> a * Q**b as a function. */
  datatype Fitters = Fitters(
    linear: Parsing.Observations -> Option<(real, real)>,
    quadratic: Parsing.Observations -> Option<(real, real, real)>,
    price: Parsing.Observations -> Option<real -> real>)

  /** One `curve_fit` call for a model with `nParams` parameters. */
  function Fit<P>(model: ModelKind, nParams: nat, obs: Parsing.Observations,
                  fitter: Parsing.Observations -> Option<P>): (r: Result<P, Failure>)
    ensures |obs.q| < nParams ==> r == Failure(FitFailed(model, TooFewPoints(nParams, |obs.q|)))
    ensures |obs.q| >= nParams && fitter(obs).None? ==> r == Failure(FitFailed(model, NotConverged))
    ensures |obs.q| >= nParams && fitter(obs).Some? ==> r == Success(fitter(obs).value)
  {
    if |obs.q| < nParams then Failure(FitFailed(model, TooFewPoints(nParams, |obs.q|)))
    else match fitter(obs)
      case None => Failure(FitFailed(model, NotConverged))
      case Some(p) => Success(p)
  }

  /** What the handler hands to the page: the linear cost curve drawn on
      the display grid, the simulated series, the break-even quantities and
      the summary. */
  datatype Report = Report(
    linearCost: seq<real>,
    series: Simulation.Series,
    breakEven: seq<real>,
    summary: Summary.ProfitSummary)

  /** Everything after fitting (app.py:52-66 and 113): the break-even scan
      on `qFull`, the display simulation on `qSim`, and the summary. On
      success the summary holds the largest profit of the display series,
      the display quantity at the first sample that attains it, and the
      break-even quantities of the scan grid each paired with the fitted
      price there; every series is index-aligned with the display grid. */
  function Evaluate(lin: (real, real), quad: (real, real, real), price: real -> real,
                    qFull: seq<real>, qSim: seq<real>): (r: Result<Report, Failure>)
    ensures r.Success? <==> |qSim| > 0
    ensures r.Success? ==>
              var rep := r.value;
              && rep.series.q == qSim
              && rep.linearCost == CostModels.LinearCurve(qSim, lin.0, lin.1)
              && |rep.series.profit| == |qSim|
              && (forall j :: 0 <= j < |qSim| ==> rep.series.profit[j] <= rep.summary.maxProfit)
              && (exists k :: 0 <= k < |qSim| && rep.summary.maxProfit == rep.series.profit[k]
                              && rep.summary.qMaxProfit == qSim[k]
                              && forall j :: 0 <= j < k ==> rep.series.profit[j] < rep.series.profit[k])
              && |rep.summary.breakEven| == |rep.breakEven| <= |qFull|
              && (forall i :: 0 <= i < |rep.breakEven| ==>
                    rep.breakEven[i] in qFull && rep.summary.breakEven[i] == (rep.breakEven[i], price(rep.breakEven[i])))
  {
    var trFull := CostModels.RevenueCurve(qFull, price);
    var tcFull := CostModels.QuadraticCurve(qFull, quad.0, quad.1, quad.2);
    var points := BreakEven.FindBreakEvenPoints(qFull, trFull, tcFull);
    var series := Simulation.ProfitSeries(qSim, price, quad.0, quad.1, quad.2);
    BreakEven.FindBreakEvenPointsSpec(qFull, trFull, tcFull);
    if |qSim| == 0 then Failure(EmptyGrid)
    else
      Success(Report(CostModels.LinearCurve(qSim, lin.0, lin.1), series, points,
                     Summary.Summarize(qSim, series.profit, points, price)))
  }

  /** The handler's computation: parse the cost block, then the revenue
      block, fit linear and quadratic cost and the power-law price, in that
      order, and evaluate with the fitted parameters. The first step that
      fails decides the failure. */
  function Analyze(costText: string, revenueText: string, parseNum: string -> Option<real>,
                   fitters: Fitters, qFull: seq<real>, qSim: seq<real>): (r: Result<Report, Failure>)
    ensures Parsing.ParseBlock(costText, parseNum).Failure? ==>
              r == Failure(CostParse(Parsing.ParseBlock(costText, parseNum).error))
    ensures Parsing.ParseBlock(costText, parseNum).Success? && Parsing.ParseBlock(revenueText, parseNum).Failure? ==>
              r == Failure(RevenueParse(Parsing.ParseBlock(revenueText, parseNum).error))
    ensures Parsing.ParseBlock(costText, parseNum).Success? && Parsing.ParseBlock(revenueText, parseNum).Success? ==>
              var cost := Parsing.ParseBlock(costText, parseNum).value;
              var revenue := Parsing.ParseBlock(revenueText, parseNum).value;
              var linear := Fit(LinearCost, 2, cost, fitters.linear);
              var quadratic := Fit(QuadraticCost, 3, cost, fitters.quadratic);
              var power := Fit(PowerLawPrice, 2, revenue, fitters.price);
              && (r.Failure? ==> r.error.FitFailed? || r.error == EmptyGrid)
              && (linear.Failure? ==> r == Failure(linear.error))
              && (linear.Success? && quadratic.Failure? ==> r == Failure(quadratic.error))
              && (linear.Success? && quadratic.Success? && power.Failure? ==> r == Failure(power.error))
              && (linear.Success? && quadratic.Success? && power.Success? ==>
                    r == Evaluate(linear.value, quadratic.value, power.value, qFull, qSim))
    ensures r.Success? ==>
              && Parsing.ParseBlock(costText, parseNum).Success?
              && Parsing.ParseBlock(revenueText, parseNum).Success?
              && var cost := Parsing.ParseBlock(costText, parseNum).value;
                 var revenue := Parsing.ParseBlock(revenueText, parseNum).value;
                 && fitters.linear(cost).Some?
                 && fitters.quadratic(cost).Some?
                 && fitters.price(revenue).Some?
                 && r == Evaluate(fitters.linear(cost).value, fitters.quadratic(cost).value,
                                  fitters.price(revenue).value, qFull, qSim)
  {
    var cost :- Parsing.ParseBlock(costText, parseNum).MapFailure(e => CostParse(e));
    var revenue :- Parsing.ParseBlock(revenueText, parseNum).MapFailure(e => RevenueParse(e));
    var lin :- Fit(LinearCost, 2, cost, fitters.linear);
    var quad :- Fit(QuadraticCost, 3, cost, fitters.quadratic);
    var price :- Fit(PowerLawPrice, 2, revenue, fitters.price);
    Evaluate(lin, quad, price, qFull, qSim)
  }

  /** The computation succeeds exactly when both blocks parse, the cost
      block has at least three observations and the price block at least
      two, all three optimisers converge, and the display grid is not empty. */
  lemma AnalyzeSucceedsIff(costText: string, revenueText: string, parseNum: string -> Option<real>,
                           fitters: Fitters, qFull: seq<real>, qSim: seq<real>)
    ensures Analyze(costText, revenueText, parseNum, fitters, qFull, qSim).Success? <==>
              && Parsing.ParseBlock(costText, parseNum).Success?
              && Parsing.ParseBlock(revenueText, parseNum).Success?
              && var cost := Parsing.ParseBlock(costText, parseNum).value;
                 var revenue := Parsing.ParseBlock(revenueText, parseNum).value;
                 && |cost.q| >= 3 && |revenue.q| >= 2
                 && fitters.linear(cost).Some?
                 && fitters.quadratic(cost).Some?
                 && fitters.price(revenue).Some?
                 && |qSim| > 0
  {
    var pc := Parsing.ParseBlock(costText, parseNum);
    var pr := Parsing.ParseBlock(revenueText, parseNum);
    if pc.Success? && pr.Success? {
      var cost, revenue := pc.value, pr.value;
      var r := Analyze(costText, revenueText, parseNum, fitters, qFull, qSim);
      var fl := Fit(LinearCost, 2, cost, fitters.linear);
      var fq := Fit(QuadraticCost, 3, cost, fitters.quadratic);
      var fp := Fit(PowerLawPrice, 2, revenue, fitters.price);
      if fl.Success? && fq.Success? && fp.Success? {
        assert r == Evaluate(fl.value, fq.value, fp.value, qFull, qSim);
      } else {
        assert r.Failure?;
      }
    }
  }

  /** The break-even quantities of a report are the scan-grid quantities at
      exactly the indices where the sign of price(Q) * Q minus the quadratic
      cost changes between neighbours (no epsilon substitution on the scan
      grid), in grid order; the display series is the simulation of the
      fitted curves. */
  lemma EvaluateBreakEven(lin: (real, real), quad: (real, real, real), price: real -> real,
                          qFull: seq<real>, qSim: seq<real>)
    requires |qSim| > 0
    ensures var rep := Evaluate(lin, quad, price, qFull, qSim).value;
            var idx := BreakEven.SignChanges(ScanProfit(qFull, price, quad));
            && rep.series == Simulation.ProfitSeries(qSim, price, quad.0, quad.1, quad.2)
            && |rep.breakEven| == |idx|
            && (forall k :: 0 <= k < |idx| ==> idx[k] < |qFull| && rep.breakEven[k] == qFull[idx[k]])
            && (forall a, b :: 0 <= a < b < |idx| ==> idx[a] < idx[b])
            && (forall i :: i in idx <==>
                  (0 <= i < |qFull| - 1 && ScanProfitSign(qFull, price, quad, i) != ScanProfitSign(qFull, price, quad, i + 1)))
  {
    var trFull := CostModels.RevenueCurve(qFull, price);
    var tcFull := CostModels.QuadraticCurve(qFull, quad.0, quad.1, quad.2);
    BreakEven.FindBreakEvenPointsSpec(qFull, trFull, tcFull);
  }

  /** Revenue minus cost on the scan grid (app.py:53-54 and 23). */
  function ScanProfit(qFull: seq<real>, price: real -> real, quad: (real, real, real)): (d: seq<real>)
    ensures |d| == |qFull|
    ensures forall i :: 0 <= i < |qFull| ==>
              d[i] == CostModels.Revenue(price, qFull[i]) - CostModels.Quadratic(qFull[i], quad.0, quad.1, quad.2)
  {
    BreakEven.Difference(CostModels.RevenueCurve(qFull, price),
                         CostModels.QuadraticCurve(qFull, quad.0, quad.1, quad.2))
  }

  /** The sign of price(Q) * Q minus quadratic cost at scan sample i. */
  function ScanProfitSign(qFull: seq<real>, price: real -> real, quad: (real, real, real), i: nat): int
    requires i < |qFull|
  {
    BreakEven.Sign(CostModels.Revenue(price, qFull[i]) - CostModels.Quadratic(qFull[i], quad.0, quad.1, quad.2))
  }

  /** An empty cost block is reported as a cost parse failure. */
  lemma EmptyCostBlockFails(costText: string, revenueText: string, parseNum: string -> Option<real>,
                            fitters: Fitters, qFull: seq<real>, qSim: seq<real>)
    requires Text.AllSpace(costText)
    ensures Analyze(costText, revenueText, parseNum, fitters, qFull, qSim).Failure?
    ensures Analyze(costText, revenueText, parseNum, fitters, qFull, qSim).error.CostParse?
  {
    Parsing.EmptyBlockFails(costText, parseNum);
  }

  /** A cost block with fewer than three observations cannot be fitted: with
      fewer than two the linear fit refuses it, with two the linear fit runs
      and then the quadratic fit refuses it (unless the linear optimiser
      already failed). */
  lemma TooFewCostPointsFails(costText: string, revenueText: string, parseNum: string -> Option<real>,
                              fitters: Fitters, qFull: seq<real>, qSim: seq<real>)
    requires Parsing.ParseBlock(costText, parseNum).Success?
    requires Parsing.ParseBlock(revenueText, parseNum).Success?
    requires |Parsing.ParseBlock(costText, parseNum).value.q| < 3
    ensures var n := |Parsing.ParseBlock(costText, parseNum).value.q|;
            var r := Analyze(costText, revenueText, parseNum, fitters, qFull, qSim);
            && r.Failure?
            && (n < 2 ==> r.error == FitFailed(LinearCost, TooFewPoints(2, n)))
            && (n == 2 ==> r.error == FitFailed(LinearCost, NotConverged)
                           || r.error == FitFailed(QuadraticCost, TooFewPoints(3, 2)))
  {
  }
}
