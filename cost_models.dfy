/** The fitted model families (app.py:13-20). Linear and quadratic cost are
    real polynomials. The power-law price a * Q**b has a real exponent and is
    not evaluated here: everywhere it is needed the model takes the fitted
    price curve as a function `price: real -> real`. */
module CostModels {

  /** `linear_model(Q, m, b)`: cost with slope `m` and fixed cost `b`. */
  function Linear(q: real, m: real, b: real): (cost: real)
    ensures q == 0.0 ==> cost == b
    ensures m == 0.0 ==> cost == b
  {
    m * q + b
  }

  /** `quadratic_model(Q, a, b, c)`; `Q**2` is `Q * Q`. With `a` equal to
      zero it is the linear model, and in Horner form it is a linear model
      whose slope depends on `q`. */
  function Quadratic(q: real, a: real, b: real, c: real): (cost: real)
    ensures q == 0.0 ==> cost == c
    ensures a == 0.0 ==> cost == Linear(q, b, c)
    ensures cost == Linear(q, a * q + b, c)
  {
    a * q * q + b * q + c
  }

  /** Total revenue at quantity `q` for a price curve: price times quantity. */
  function Revenue(price: real -> real, q: real): (revenue: real)
    ensures q == 0.0 ==> revenue == 0.0
    ensures price(q) == 0.0 ==> revenue == 0.0
  {
    price(q) * q
  }

  /** `linear_model` applied element-wise to a quantity grid. */
  function LinearCurve(qs: seq<real>, m: real, b: real): (costs: seq<real>)
    ensures |costs| == |qs|
    ensures forall i :: 0 <= i < |qs| ==> costs[i] == Linear(qs[i], m, b)
  {
    seq(|qs|, i requires 0 <= i < |qs| => Linear(qs[i], m, b))
  }

  /** `quadratic_model` applied element-wise to a quantity grid. */
  function QuadraticCurve(qs: seq<real>, a: real, b: real, c: real): (costs: seq<real>)
    ensures |costs| == |qs|
    ensures forall i :: 0 <= i < |qs| ==> costs[i] == Quadratic(qs[i], a, b, c)
  {
    seq(|qs|, i requires 0 <= i < |qs| => Quadratic(qs[i], a, b, c))
  }

  /** `nonlinear_price_model(Q, *popt) * Q` applied element-wise. */
  function RevenueCurve(qs: seq<real>, price: real -> real): (revenues: seq<real>)
    ensures |revenues| == |qs|
    ensures forall i :: 0 <= i < |qs| ==> revenues[i] == Revenue(price, qs[i])
  {
    seq(|qs|, i requires 0 <= i < |qs| => Revenue(price, qs[i]))
  }
}
