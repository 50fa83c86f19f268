/**
 The finite-difference oracle: wraps any pricing formula and approximates
 delta, gamma and theta by difference quotients with a settable step `h`.
 */
module FiniteDifference {
  import opened Formulas

  /** The step used when the constructor is given none. */
  const DefaultStep: real := 0.01

  /** Central first difference of values taken at x + h and x - h. */
  function CentralDifference(up: real, down: real, h: real): real
    requires h != 0.0
  {
    (up - down) / (2.0 * h)
  }

  /** Central second difference of values taken at x + h, x and x - h. */
  function SecondDifference(up: real, mid: real, down: real, h: real): real
    requires h != 0.0
  {
    (up - 2.0 * mid + down) / (h * h)
  }

  /** Backward difference of values taken at x - h and x. */
  function BackwardDifference(back: real, now: real, h: real): real
    requires h != 0.0
  {
    (back - now) / h
  }

  class NumericalGreeks {
    /** The wrapped pricing formula, fixed at construction; the step is the
        oracle's one mutable field. */
    const pricingFn: Formula
    var h: real

    /** Stores the pricing formula and the step. */
    constructor (pricingFn: Formula, h: real := DefaultStep)
      ensures this.pricingFn == pricingFn && this.h == h
    {
      this.pricingFn := pricingFn;
      this.h := h;
    }

    /** Replaces the step; later quotients use the new step. The pricing
        formula is a constant field, so it is kept. */
    method SetStepSize(h: real)
      modifies this
      ensures this.h == h
    {
      this.h := h;
    }

    /** Central difference in the spot. */
    function Delta(S: real, K: real, T: real, r: real, sigma: real, b: real): (d: real)
      reads this
      requires h != 0.0
      ensures d * (2.0 * h) == pricingFn(S + h, K, T, r, sigma, b) - pricingFn(S - h, K, T, r, sigma, b)
    {
      CentralDifference(pricingFn(S + h, K, T, r, sigma, b), pricingFn(S - h, K, T, r, sigma, b), h)
    }

    /** Central second difference in the spot. */
    function Gamma(S: real, K: real, T: real, r: real, sigma: real, b: real): (g: real)
      reads this
      requires h != 0.0
      ensures g * (h * h) == pricingFn(S + h, K, T, r, sigma, b) - 2.0 * pricingFn(S, K, T, r, sigma, b)
                             + pricingFn(S - h, K, T, r, sigma, b)
    {
      SecondDifference(pricingFn(S + h, K, T, r, sigma, b), pricingFn(S, K, T, r, sigma, b),
                       pricingFn(S - h, K, T, r, sigma, b), h)
    }

    /** Backward difference in the time to expiry. */
    function Theta(S: real, K: real, T: real, r: real, sigma: real, b: real): (t: real)
      reads this
      requires h != 0.0
      ensures t * h == pricingFn(S, K, T - h, r, sigma, b) - pricingFn(S, K, T, r, sigma, b)
    {
      BackwardDifference(pricingFn(S, K, T - h, r, sigma, b), pricingFn(S, K, T, r, sigma, b), h)
    }
  }

  /** A fresh oracle has step 0.01; after SetStepSize it has the new step and
      still the formula it was built with. */
  method StepSizeLifecycle(f: Formula, h: real) returns (g: NumericalGreeks, initialStep: real)
    ensures initialStep == 0.01
    ensures g.pricingFn == f && g.h == h
  {
    g := new NumericalGreeks(f);
    initialStep := g.h;
    g.SetStepSize(h);
  }

  /** The central difference returns `slope` exactly when the values 2h
      apart differ by slope * 2h. */
  lemma CentralDifferenceExact(up: real, down: real, h: real, slope: real)
    requires h != 0.0
    ensures CentralDifference(up, down, h) == slope <==> up - down == slope * (2.0 * h)
  {
  }

  /** Dividing by a product is dividing by each factor in turn. */
  lemma DivideByProduct(n: real, a: real, b: real)
    requires a != 0.0 && b != 0.0
    ensures n / (a * b) == n / a / b
  {
  }

  /** The second difference returns `curvature` exactly when the second
      difference of the values is curvature * h^2. */
  lemma SecondDifferenceExact(up: real, mid: real, down: real, h: real, curvature: real)
    requires h != 0.0
    ensures SecondDifference(up, mid, down, h) == curvature
        <==> up - 2.0 * mid + down == curvature * (h * h)
  {
    DivideByProduct(up - 2.0 * mid + down, h, h);
    if up - 2.0 * mid + down == curvature * (h * h) {
      assert (up - 2.0 * mid + down) / h == curvature * h;
    }
  }

  /** The backward difference returns -slope exactly when the values h
      apart differ by -slope * h. */
  lemma BackwardDifferenceExact(back: real, now: real, h: real, slope: real)
    requires h != 0.0
    ensures BackwardDifference(back, now, h) == -slope <==> back - now == -slope * h
  {
  }

  /** Delta evaluates the formula at S + h and S - h only, with the other
      five arguments passed through: any formula that agrees there gives the
      same delta. */
  lemma DeltaReadsSpotNeighbours(o: NumericalGreeks, g: Formula,
                                 S: real, K: real, T: real, r: real, sigma: real, b: real)
    requires o.h != 0.0
    requires g(S + o.h, K, T, r, sigma, b) == o.pricingFn(S + o.h, K, T, r, sigma, b)
    requires g(S - o.h, K, T, r, sigma, b) == o.pricingFn(S - o.h, K, T, r, sigma, b)
    ensures o.Delta(S, K, T, r, sigma, b)
         == CentralDifference(g(S + o.h, K, T, r, sigma, b), g(S - o.h, K, T, r, sigma, b), o.h)
  {
  }

  /** Gamma evaluates the formula at S + h, S and S - h only. */
  lemma GammaReadsSpotNeighbours(o: NumericalGreeks, g: Formula,
                                 S: real, K: real, T: real, r: real, sigma: real, b: real)
    requires o.h != 0.0
    requires g(S + o.h, K, T, r, sigma, b) == o.pricingFn(S + o.h, K, T, r, sigma, b)
    requires g(S, K, T, r, sigma, b) == o.pricingFn(S, K, T, r, sigma, b)
    requires g(S - o.h, K, T, r, sigma, b) == o.pricingFn(S - o.h, K, T, r, sigma, b)
    ensures o.Gamma(S, K, T, r, sigma, b)
         == SecondDifference(g(S + o.h, K, T, r, sigma, b), g(S, K, T, r, sigma, b),
                             g(S - o.h, K, T, r, sigma, b), o.h)
  {
  }

  /** Theta evaluates the formula at T - h and T only, never at T + h, and
      leaves the spot unchanged. */
  lemma ThetaReadsBackward(o: NumericalGreeks, g: Formula,
                           S: real, K: real, T: real, r: real, sigma: real, b: real)
    requires o.h != 0.0
    requires g(S, K, T - o.h, r, sigma, b) == o.pricingFn(S, K, T - o.h, r, sigma, b)
    requires g(S, K, T, r, sigma, b) == o.pricingFn(S, K, T, r, sigma, b)
    ensures o.Theta(S, K, T, r, sigma, b)
         == BackwardDifference(g(S, K, T - o.h, r, sigma, b), g(S, K, T, r, sigma, b), o.h)
  {
  }

  /** A formula that is constant in S and T has zero delta, gamma and theta. */
  lemma ConstantFormulaHasZeroGreeks(o: NumericalGreeks, c: real,
                                     S: real, K: real, T: real, r: real, sigma: real, b: real)
    requires o.h != 0.0
    requires forall x, y :: o.pricingFn(x, K, y, r, sigma, b) == c
    ensures o.Delta(S, K, T, r, sigma, b) == 0.0
    ensures o.Gamma(S, K, T, r, sigma, b) == 0.0
    ensures o.Theta(S, K, T, r, sigma, b) == 0.0
  {
    SecondDifferenceExact(c, c, c, o.h, 0.0);
  }

  /** For a formula quadratic in the spot, a2*S^2 + a1*S + a0, the central
      differences are exact: delta is 2*a2*S + a1 and gamma is 2*a2. In
      particular a formula affine in the spot with slope a1 has delta a1 and
      gamma 0. */
  lemma QuadraticInSpotIsExact(o: NumericalGreeks, a2: real, a1: real, a0: real,
                               S: real, K: real, T: real, r: real, sigma: real, b: real)
    requires o.h != 0.0
    requires forall x :: o.pricingFn(x, K, T, r, sigma, b) == a2 * x * x + a1 * x + a0
    ensures o.Delta(S, K, T, r, sigma, b) == 2.0 * a2 * S + a1
    ensures o.Gamma(S, K, T, r, sigma, b) == 2.0 * a2
  {
    var h := o.h;
    var up := o.pricingFn(S + h, K, T, r, sigma, b);
    var mid := o.pricingFn(S, K, T, r, sigma, b);
    var down := o.pricingFn(S - h, K, T, r, sigma, b);
    assert up - down == (2.0 * a2 * S + a1) * (2.0 * h);
    CentralDifferenceExact(up, down, h, 2.0 * a2 * S + a1);
    assert up - 2.0 * mid + down == (2.0 * a2) * (h * h);
    SecondDifferenceExact(up, mid, down, h, 2.0 * a2);
  }

  /** For a formula affine in the time to expiry with slope c, the backward
      difference gives exactly -c. */
  lemma AffineInExpiryTheta(o: NumericalGreeks, c: real, d: real,
                            S: real, K: real, T: real, r: real, sigma: real, b: real)
    requires o.h != 0.0
    requires forall y :: o.pricingFn(S, K, y, r, sigma, b) == c * y + d
    ensures o.Theta(S, K, T, r, sigma, b) == -c
  {
    var h := o.h;
    var back := o.pricingFn(S, K, T - h, r, sigma, b);
    var now := o.pricingFn(S, K, T, r, sigma, b);
    assert back - now == -c * h;
    BackwardDifferenceExact(back, now, h, c);
  }
}
