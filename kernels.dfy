/**
 * The smoothing kernel, its derivative and the equation of state of the fluid
 * solver (fluid_sim.c, lines 4-8 and 74-98), with floats modelled as reals.
 *
 * PI32 comes from the engine's base header, which is not part of this model;
 * it is an unspecified positive real here, so every property below holds
 * whatever value it has.
 */
module Kernels {

  type PositiveReal = r: real | r > 0.0 witness 1.0

  /** PI32: an unspecified positive constant. */
  const Pi32: PositiveReal

  const SmoothingRadius: real := 2.0
  const RestDensity: real := 2.75
  const PressureConstant: real := 10.0

  /** powf(SMOOTHING_RADIUS, 4); exact, since the radius is a power of two. */
  const RadiusPow4: real := SmoothingRadius * SmoothingRadius * SmoothingRadius * SmoothingRadius

  /** The normalising volume `PI32 * R^4 / 6` of the kernel. */
  function Volume(): (v: real)
    ensures v > 0.0
  {
    Pi32 * RadiusPow4 / 6.0
  }

  /** The scale `12 / (R^4 * PI32)` of the derivative kernel; it is `2 / volume`. */
  function DerivativeScale(): (s: real)
    ensures s > 0.0
    ensures s * Volume() == 2.0
  {
    ScaleTimesVolume(Pi32);
    12.0 / (RadiusPow4 * Pi32)
  }

  /**
   * SmoothingKernel: `(R - d)^2 / volume` inside the radius, zero from the
   * radius on; never negative, and zero exactly from the radius on.
   */
  function SmoothingKernel(distance: real): (r: real)
    ensures r >= 0.0
    ensures r == 0.0 <==> distance >= SmoothingRadius
  {
    if distance >= SmoothingRadius then 0.0
    else
      SquareOverPositive(SmoothingRadius - distance, Volume());
      (SmoothingRadius - distance) * (SmoothingRadius - distance) / Volume()
  }

  /**
   * SmoothingKernelDerivative: `(d - R) * scale` inside the radius, zero from
   * the radius on; never positive, and zero exactly from the radius on.
   */
  function SmoothingKernelDerivative(distance: real): (r: real)
    ensures r <= 0.0
    ensures r == 0.0 <==> distance >= SmoothingRadius
  {
    if distance >= SmoothingRadius then 0.0
    else
      ProductPositive(SmoothingRadius - distance, DerivativeScale());
      (distance - SmoothingRadius) * DerivativeScale()
  }

  /**
   * ConvertDensityToPressure: the linear equation of state. The pressure has
   * the sign of the density error: zero exactly at rest density, negative
   * (tension) below it, positive above it.
   */
  function ConvertDensityToPressure(density: real): (p: real)
    ensures p == 0.0 <==> density == RestDensity
    ensures p < 0.0 <==> density < RestDensity
    ensures p > 0.0 <==> density > RestDensity
  {
    (density - RestDensity) * PressureConstant
  }

  /** CalculateSharedPressure: the mean, which lies between its two arguments. */
  function CalculateSharedPressure(pressureA: real, pressureB: real): (r: real)
    ensures pressureA <= r <= pressureB || pressureB <= r <= pressureA
    ensures pressureA == pressureB ==> r == pressureA
  {
    (pressureA + pressureB) / 2.0
  }

  // ---------------------------------------------------------------------------
  // Smoothing kernel

  /** The kernel is strictly decreasing up to the radius (so on [0, R)). */
  lemma KernelStrictlyDecreasing(d1: real, d2: real)
    requires d1 < d2 && d1 < SmoothingRadius
    ensures SmoothingKernel(d2) < SmoothingKernel(d1)
  {
    if d2 < SmoothingRadius {
      SquareLess(SmoothingRadius - d2, SmoothingRadius - d1);
      DivideSquaresLess(SmoothingRadius - d2, SmoothingRadius - d1, Volume());
    }
  }

  /** The kernel peaks at distance 0 with the value `4 / volume = 3 / (2 PI32)`. */
  lemma KernelPeakAtZero(d: real)
    requires d >= 0.0
    ensures SmoothingKernel(d) <= SmoothingKernel(0.0)
    ensures SmoothingKernel(0.0) == 4.0 / Volume()
    ensures SmoothingKernel(0.0) * Pi32 == 1.5
  {
    if d > 0.0 {
      KernelStrictlyDecreasing(0.0, d);
    }
    PeakTimesPi(Pi32);
  }

  /**
   * The kernel is continuous at the radius: for every tolerance there is a
   * band below the radius on which the kernel stays under the tolerance (and
   * from the radius on it is zero).
   */
  lemma KernelVanishesAtRadius(eps: real) returns (delta: real)
    requires eps > 0.0
    ensures delta > 0.0
    ensures forall d :: SmoothingRadius - delta < d ==> SmoothingKernel(d) < eps
  {
    var v := Volume();
    ProductPositive(eps, v);
    delta := if eps * v < 1.0 then eps * v else 1.0;
    forall d | SmoothingRadius - delta < d
      ensures SmoothingKernel(d) < eps
    {
      if d < SmoothingRadius {
        var h := SmoothingRadius - d;
        SquareOverBelow(h, eps, v);
      }
    }
  }

  // ---------------------------------------------------------------------------
  // Derivative kernel

  /** The derivative kernel never decreases as the distance grows. */
  lemma DerivativeNonDecreasing(d1: real, d2: real)
    requires d1 <= d2
    ensures SmoothingKernelDerivative(d1) <= SmoothingKernelDerivative(d2)
  {
    if d2 < SmoothingRadius {
      ScaleMonotone(d1 - SmoothingRadius, d2 - SmoothingRadius, DerivativeScale());
    }
  }

  /**
   * Below the radius the derivative kernel strictly increases with the
   * distance: its magnitude strictly grows as the distance falls.
   */
  lemma DerivativeStrictlyIncreasing(d1: real, d2: real)
    requires d1 < d2 && d1 < SmoothingRadius
    ensures SmoothingKernelDerivative(d1) < SmoothingKernelDerivative(d2)
  {
    if d2 < SmoothingRadius {
      ScaleStrictlyMonotone(d1 - SmoothingRadius, d2 - SmoothingRadius, DerivativeScale());
    }
  }

  /** The derivative kernel is most negative at distance 0, where it is `-3 / (2 PI32)`. */
  lemma DerivativeMostNegativeAtZero(d: real)
    requires d >= 0.0
    ensures SmoothingKernelDerivative(0.0) <= SmoothingKernelDerivative(d)
    ensures SmoothingKernelDerivative(0.0) * Pi32 == -1.5
  {
    DerivativeNonDecreasing(0.0, d);
    SlopeAtZeroTimesPi(Pi32);
  }

  /**
   * The two kernels are paired: on [d1, d2] up to the radius, the change of
   * the kernel is the length of the interval times the mean of the
   * derivative kernel at its ends. For a quadratic this trapezoid rule is
   * exact, so the derivative kernel is the kernel's true derivative.
   */
  lemma DerivativeMatchesKernel(d1: real, d2: real)
    requires d1 <= d2 <= SmoothingRadius
    ensures SmoothingKernel(d2) - SmoothingKernel(d1)
         == (d2 - d1) * (SmoothingKernelDerivative(d1) + SmoothingKernelDerivative(d2)) / 2.0
  {
    var v, s := Volume(), DerivativeScale();
    if d1 < SmoothingRadius {
      SquareOverAsScale(SmoothingRadius - d1, s, v);
      SquareOverAsScale(SmoothingRadius - d2, s, v);
      Trapezoid(SmoothingRadius - d1, SmoothingRadius - d2, s);
    }
  }

  // ---------------------------------------------------------------------------
  // Pressure

  /** The equation of state is strictly increasing in the density. */
  lemma PressureStrictlyIncreasing(d1: real, d2: real)
    requires d1 < d2
    ensures ConvertDensityToPressure(d1) < ConvertDensityToPressure(d2)
  {
  }

  /** The shared pressure does not depend on the order of the pair. */
  lemma SharedPressureSymmetric(pressureA: real, pressureB: real)
    ensures CalculateSharedPressure(pressureA, pressureB) == CalculateSharedPressure(pressureB, pressureA)
  {
  }

  // ---------------------------------------------------------------------------
  // Single steps of real arithmetic, each over plain variables so that the
  // solver never has to match a product against a renamed copy of it.

  lemma ProductPositive(x: real, y: real)
    requires x > 0.0 && y > 0.0
    ensures x * y > 0.0
  {
  }

  lemma SquareOverPositive(h: real, v: real)
    requires h > 0.0 && v > 0.0
    ensures h * h / v > 0.0
  {
    ProductPositive(h, h);
    ProductOverPositive(h, h, v);
  }

  lemma ProductOverPositive(x: real, y: real, v: real)
    requires x * y > 0.0 && v > 0.0
    ensures x * y / v > 0.0
  {
  }

  lemma SquareLess(b: real, a: real)
    requires 0.0 <= b < a
    ensures b * b < a * a
  {
    ProductPositive(a - b, a + b);
  }

  lemma DivideSquaresLess(b: real, a: real, v: real)
    requires b * b < a * a && v > 0.0
    ensures b * b / v < a * a / v
  {
  }

  lemma SquareAtMostSelf(h: real)
    requires 0.0 < h <= 1.0
    ensures h * h <= h
  {
  }

  lemma SquareOverBelow(h: real, e: real, v: real)
    requires 0.0 < h <= 1.0 && h < e * v && v > 0.0
    ensures h * h / v < e
  {
    SquareAtMostSelf(h);
    SquareBelowOver(h, e, v);
  }

  lemma SquareBelowOver(h: real, e: real, v: real)
    requires h * h < e * v && v > 0.0
    ensures h * h / v < e
  {
  }

  lemma ScaleMonotone(a: real, b: real, s: real)
    requires a <= b && s > 0.0
    ensures a * s <= b * s
  {
  }

  lemma ScaleStrictlyMonotone(a: real, b: real, s: real)
    requires a < b && s > 0.0
    ensures a * s < b * s
  {
  }

  lemma SquareOverAsScale(h: real, s: real, v: real)
    requires s * v == 2.0 && v > 0.0
    ensures h * h / v == h * h * s / 2.0
  {
  }

  lemma Trapezoid(a: real, b: real, s: real)
    ensures b * b * s / 2.0 - a * a * s / 2.0 == (a - b) * (-a * s + -b * s) / 2.0
  {
  }

  lemma ScaleTimesVolume(p: real)
    requires p > 0.0
    ensures 12.0 / (RadiusPow4 * p) * (p * RadiusPow4 / 6.0) == 2.0
  {
  }

  lemma PeakTimesPi(p: real)
    requires p > 0.0
    ensures 4.0 / (p * RadiusPow4 / 6.0) * p == 1.5
  {
  }

  lemma SlopeAtZeroTimesPi(p: real)
    requires p > 0.0
    ensures -SmoothingRadius * (12.0 / (RadiusPow4 * p)) * p == -1.5
  {
  }
}
