/**
 * The resampling curves (filter kernels): each has a display name, a radius in
 * fractional source pixels and a weight function `Apply`.
 *
 * `Math.sin`, which the Lanczos curves call, is a foreign function and is taken
 * as the parameter `sin`; every other curve is independent of it.
 */
module Curves {

  datatype Curve = Box | Linear | Hermite | Cubic(sharpness: real) | Test | Lanczos3 | Lanczos8

  /** Catmull-Rom, the cubic built by the default constructor and by `INSTANCE`. */
  const CUBIC: Curve := Cubic(-0.5)
  const CUBIC_PHOTOSHOP: Curve := Cubic(-0.75)
  const CUBIC_SHARPER: Curve := Cubic(-1.0)

  /** `Math.PI` */
  const PI: real := 3.141592653589793

  /** `n * Math.PI` */
  function PiTimes(n: int): real
  {
    n as real * PI
  }

  function RAbs(x: real): (r: real)
    ensures r >= 0.0 && (r == x || r == -x)
  {
    if x < 0.0 then -x else x
  }

  function Name(c: Curve): (name: string)
    ensures name == "Cubic" <==> c.Cubic?
    ensures name == "Nearest Neighbor" <==> c.Box?
    ensures name == "Triangle" <==> c.Linear?
  {
    match c
    case Box => "Nearest Neighbor"
    case Linear => "Triangle"
    case Hermite => "Hermite"
    case Cubic(_) => "Cubic"
    case Test => "Test"
    case Lanczos3 => "Lanczos3"
    case Lanczos8 => "Lanczos8"
  }

  /** The names tell the curves apart; only the cubics of different sharpness share one. */
  lemma NamesAreDistinct(c: Curve, d: Curve)
    requires Name(c) == Name(d)
    ensures c == d || (c.Cubic? && d.Cubic?)
  {
  }

  function Radius(c: Curve): (r: real)
    ensures r > 0.0
  {
    match c
    case Box => 0.5
    case Linear => 1.0
    case Hermite => 1.0
    case Cubic(_) => 2.0
    case Test => 1.0
    case Lanczos3 => 3.0
    case Lanczos8 => 8.0
  }

  /**
   * The Box weight.  Its guard compares `x` with 0.50001 from both sides, so it
   * is zero at that single point only and one everywhere else.
   */
  function BoxApply(x: real): (w: real)
    ensures w == 0.0 || w == 1.0
    ensures w == 0.0 <==> x == 0.50001
  {
    if x <= 0.50001 && x >= 0.50001 then 0.0 else 1.0
  }

  function LinearApply(x: real): (w: real)
    ensures 0.0 <= w <= 1.0
    ensures w == 0.0 <==> RAbs(x) >= 1.0
    ensures x == 0.0 ==> w == 1.0
  {
    var v := RAbs(x);
    if v >= 1.0 then 0.0 else 1.0 - v
  }

  function HermiteApply(x: real): (w: real)
    ensures 0.0 <= w <= 1.0
    ensures RAbs(x) >= 1.0 ==> w == 0.0
    ensures x == 0.0 ==> w == 1.0
  {
    var v := RAbs(x);
    if v >= 1.0 then 0.0
    else
      HermitePolynomialFalls(0.0, v);
      HermitePolynomialFalls(v, 1.0);
      (2.0 * v - 3.0) * v * v + 1.0
  }

  /** The one-parameter cardinal cubic with intercepts fixed at -1 and +1. */
  function CubicApply(sharpness: real, x: real): (w: real)
    ensures x == 0.0 ==> w == 1.0
    ensures RAbs(x) == 1.0 || RAbs(x) >= 2.0 ==> w == 0.0
  {
    var v := RAbs(x);
    if v >= 2.0 then 0.0
    else
      var xx := v * v;
      if v < 1.0 then (sharpness + 2.0) * xx * v - (sharpness + 3.0) * xx + 1.0
      else sharpness * xx * v - 5.0 * sharpness * xx + 8.0 * sharpness * v - 4.0 * sharpness
  }

  /** The experimental curve: written separately, with the Hermite polynomial. */
  function TestApply(x: real): real
  {
    var v := RAbs(x);
    if v >= 1.0 then 0.0 else (2.0 * v - 3.0) * v * v + 1.0
  }

  function Sinc(sin: real -> real, v: real): (r: real)
    ensures v == 0.0 ==> r == 1.0
    ensures v != 0.0 ==> r * v == sin(v)
  {
    if v == 0.0 then 1.0 else sin(v) / v
  }

  /** The Lanczos window with `lobes` lobes (3 for Lanczos3, 8 for Lanczos8). */
  function LanczosApply(lobes: real, sin: real -> real, x: real): (w: real)
    requires lobes > 0.0
    ensures x == 0.0 ==> w == 1.0
    ensures RAbs(x) >= lobes ==> w == 0.0
  {
    var v := RAbs(x);
    if v >= lobes then 0.0
    else if v == 0.0 then 1.0
    else
      var p := v * PI;
      Sinc(sin, p) * Sinc(sin, p / lobes)
  }

  /** The weight of curve `c` at fractional pixel distance `x`. */
  function Apply(c: Curve, sin: real -> real, x: real): (w: real)
    ensures x == 0.0 ==> w == 1.0
    ensures !c.Box? && RAbs(x) >= Radius(c) ==> w == 0.0
  {
    match c
    case Box => BoxApply(x)
    case Linear => LinearApply(x)
    case Hermite => HermiteApply(x)
    case Cubic(a) => CubicApply(a, x)
    case Test => TestApply(x)
    case Lanczos3 => LanczosApply(3.0, sin, x)
    case Lanczos8 => LanczosApply(8.0, sin, x)
  }

  /** Every curve but Box is symmetric around zero. */
  lemma ApplyIsEven(c: Curve, sin: real -> real, x: real)
    requires !c.Box?
    ensures Apply(c, sin, -x) == Apply(c, sin, x)
  {
    AbsIsEven(x);
    match c {
      case Linear =>
        assert LinearApply(-x) == LinearApply(x);
      case Hermite =>
        HermiteIsEven(x);
      case Cubic(a) =>
        CubicIsEven(a, x);
      case Test =>
        assert TestApply(-x) == TestApply(x);
      case Lanczos3 =>
        LanczosIsEven(3.0, sin, x);
      case Lanczos8 =>
        LanczosIsEven(8.0, sin, x);
    }
  }

  lemma AbsIsEven(x: real)
    ensures RAbs(-x) == RAbs(x)
  {
  }

  lemma CubicIsEven(a: real, x: real)
    ensures CubicApply(a, -x) == CubicApply(a, x)
  {
    AbsIsEven(x);
  }

  lemma HermiteIsEven(x: real)
    ensures HermiteApply(-x) == HermiteApply(x)
  {
    var v := RAbs(x);
    AbsIsEven(x);
    if v < 1.0 {
      assert HermiteApply(x) == (2.0 * v - 3.0) * v * v + 1.0;
      assert HermiteApply(-x) == (2.0 * v - 3.0) * v * v + 1.0;
    }
  }

  lemma LanczosIsEven(lobes: real, sin: real -> real, x: real)
    requires lobes > 0.0
    ensures LanczosApply(lobes, sin, -x) == LanczosApply(lobes, sin, x)
  {
    AbsIsEven(x);
  }

  /** Box is not symmetric: it vanishes at +0.50001 but not at -0.50001. */
  lemma BoxIsNotEven(sin: real -> real)
    ensures Apply(Box, sin, 0.50001) == 0.0
    ensures Apply(Box, sin, -0.50001) == 1.0
  {
  }

  /** Box is one beyond its own radius, for instance at distance 1. */
  lemma BoxNonzeroBeyondRadius(sin: real -> real, x: real)
    requires RAbs(x) > Radius(Box) && x != 0.50001
    ensures Apply(Box, sin, x) == 1.0
  {
  }

  /**
   * Every curve but Box is zero at all non-zero integer positions (so it does
   * not blur), provided `sin` vanishes at integer multiples of pi.
   */
  lemma {:induction false} ApplyVanishesAtNonzeroIntegers(c: Curve, sin: real -> real, k: int)
    requires !c.Box? && k != 0
    requires forall n: int :: sin(PiTimes(n)) == 0.0
    ensures Apply(c, sin, k as real) == 0.0
  {
    var v := RAbs(k as real);
    assert v >= 1.0;
    match c {
      case Cubic(a) =>
        if v < 2.0 {
          assert v == 1.0;
          calc {
            CubicApply(a, k as real);
            a * 1.0 * 1.0 * 1.0 - 5.0 * a * 1.0 + 8.0 * a * 1.0 - 4.0 * a;
            0.0;
          }
        }
      case Lanczos3 =>
        LanczosAtInteger(3.0, sin, k);
      case Lanczos8 =>
        LanczosAtInteger(8.0, sin, k);
      case _ =>
    }
  }

  lemma {:induction false} LanczosAtInteger(lobes: real, sin: real -> real, k: int)
    requires lobes > 0.0 && k != 0
    requires forall n: int :: sin(PiTimes(n)) == 0.0
    ensures LanczosApply(lobes, sin, k as real) == 0.0
  {
    var v := RAbs(k as real);
    if v < lobes {
      var m := if k < 0 then -k else k;
      assert v == m as real;
      assert sin(PiTimes(m)) == 0.0;
      assert Sinc(sin, v * PI) == 0.0;
    }
  }

  /** The cubic's two polynomial pieces meet at 1 (both zero) and the outer one reaches zero at 2. */
  lemma CubicIsContinuous(a: real)
    ensures (a + 2.0) * 1.0 * 1.0 - (a + 3.0) * 1.0 + 1.0 == 0.0
    ensures a * 1.0 * 1.0 - 5.0 * a * 1.0 + 8.0 * a - 4.0 * a == 0.0
    ensures a * 4.0 * 2.0 - 5.0 * a * 4.0 + 8.0 * a * 2.0 - 4.0 * a == 0.0
  {
  }

  /** Triangle weights lie in [0, 1] and fall as the distance grows. */
  lemma LinearIsUnitAndDecreasing(x: real, y: real)
    requires RAbs(x) <= RAbs(y)
    ensures 0.0 <= LinearApply(y) <= LinearApply(x) <= 1.0
  {
  }

  /** Hermite weights lie in [0, 1] and fall as the distance grows: no under- or overshoot. */
  lemma {:induction false} HermiteIsUnitAndDecreasing(x: real, y: real)
    requires RAbs(x) <= RAbs(y)
    ensures 0.0 <= HermiteApply(y) <= HermiteApply(x) <= 1.0
  {
    var u, v := RAbs(x), RAbs(y);
    if v < 1.0 {
      HermitePolynomialFalls(u, v);
      HermitePolynomialFalls(v, 1.0);
      HermitePolynomialFalls(0.0, u);
    } else if u < 1.0 {
      HermitePolynomialFalls(u, 1.0);
      HermitePolynomialFalls(0.0, u);
    }
  }

  lemma HermitePolynomialFalls(u: real, v: real)
    requires 0.0 <= u <= v <= 1.0
    ensures (2.0 * v - 3.0) * v * v + 1.0 <= (2.0 * u - 3.0) * u * u + 1.0
  {
    // h(u) - h(v) = (v - u) * (3(u + v) - 2(u^2 + uv + v^2)), both factors non-negative
    ProductIsNonNegative(u, 1.0 - u);
    ProductIsNonNegative(v, 1.0 - v);
    ProductIsNonNegative(v, 1.0 - u);
    ProductIsNonNegative(u, 1.0 - v);
    var f := 3.0 * (u + v) - 2.0 * (u * u + u * v + v * v);
    ProductIsNonNegative(v - u, f);
    HermiteDifference(u, v);
  }

  lemma HermiteDifference(u: real, v: real)
    ensures ((2.0 * u - 3.0) * u * u + 1.0) - ((2.0 * v - 3.0) * v * v + 1.0)
         == (v - u) * (3.0 * (u + v) - 2.0 * (u * u + u * v + v * v))
  {
  }

  lemma ProductIsNonNegative(a: real, b: real)
    requires a >= 0.0 && b >= 0.0
    ensures a * b >= 0.0
  {
  }

  /** The Test curve is the Hermite curve. */
  lemma TestIsHermite(sin: real -> real, x: real)
    ensures Apply(Test, sin, x) == Apply(Hermite, sin, x)
  {
  }

  /** Only the Lanczos curves depend on `sin`. */
  lemma ApplyIgnoresSinOutsideLanczos(c: Curve, sin1: real -> real, sin2: real -> real, x: real)
    requires !c.Lanczos3? && !c.Lanczos8?
    ensures Apply(c, sin1, x) == Apply(c, sin2, x)
  {
  }
}
