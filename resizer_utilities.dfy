/**
 * `ResizerUtilities`: the target-size policies that fit an image into, around
 * or along a target size, the conditions under which they apply, rounding
 * integer division, and the choice of a resampling curve from the scale factor.
 * All integer arithmetic is Java `int` arithmetic, wrapping on 32 bits.
 */
module ResizerUtilities {
  import opened Java
  import opened Curves
  import opened SizeInts

  datatype ScalingTarget =
    | STRETCH | INSIDE | OUTSIDE | WIDTH_TOUCH | HEIGHT_TOUCH
    | SAME_DIAGONAL | SAME_CIRCUMFERENCE | SAME_AREA

  datatype ScalingCondition = ALWAYS | NEVER | ONLY_IF_LARGER | ONLY_IF_SMALLER

  /** `intDivRound`: `(numerator + denominator / 2) / denominator`, and 0 for a zero denominator. */
  function IntDivRound(numerator: int, denominator: int): (r: int)
    ensures IsInt(r)
    ensures denominator == 0 ==> r == 0
  {
    if denominator == 0 then 0
    else ToInt(Quot(ToInt(numerator + Quot(denominator, 2)), denominator))
  }

  /**
   * For a non-negative numerator and a positive denominator that do not
   * overflow, `intDivRound` rounds the quotient to the nearest integer, halves
   * upwards: `r - 1/2 <= n / d < r + 1/2`.
   */
  lemma IntDivRoundRoundsHalfUp(n: int, d: int)
    requires 0 <= n && 0 < d && IsInt(n + d)
    ensures var r := IntDivRound(n, d);
      (2 * r - 1) * d <= 2 * n < (2 * r + 1) * d
  {
    var h := Quot(d, 2);
    assert 2 * h <= d <= 2 * h + 1;
    var q := Quot(n + h, d);
    assert q * d <= n + h < (q + 1) * d;
    if q < 0 {
      MulIsMonotone(q + 1, 0, d);
    }
    MulIsMonotone(1, d, q);
    assert IntDivRound(n, d) == q;
    RoundingBounds(n, d, h, q);
  }

  lemma RoundingBounds(n: int, d: int, h: int, q: int)
    requires 2 * h <= d <= 2 * h + 1 && q * d <= n + h < (q + 1) * d
    ensures (2 * q - 1) * d <= 2 * n < (2 * q + 1) * d
  {
    var p := q * d;
    assert (q + 1) * d == p + d;
    assert (2 * q - 1) * d == 2 * p - d;
    assert (2 * q + 1) * d == 2 * p + d;
  }

  /** A rounded quotient of at most `b * d` by `d` is at most `b`. */
  lemma RoundedAtMost(a: int, b: int, r: int, d: int)
    requires 0 < d && (2 * r - 1) * d <= 2 * a && a <= b * d
    ensures r <= b
  {
    assert 2 * a <= (2 * b) * d;
    LessAfterScaling(2 * r - 1, 2 * b + 1, d);
  }

  /** A rounded quotient of at least `b * d` by `d` is at least `b`. */
  lemma RoundedAtLeast(a: int, b: int, r: int, d: int)
    requires 0 < d && 2 * a < (2 * r + 1) * d && b * d <= a
    ensures b <= r
  {
    assert (2 * b) * d <= 2 * a;
    LessAfterScaling(2 * b, 2 * r + 1, d);
  }

  /** Comparing two multiples of a positive number compares the factors. */
  lemma LessAfterScaling(a: int, b: int, d: int)
    requires 0 < d && a * d < b * d
    ensures a < b
  {
    if a >= b {
      MulIsMonotone(b, a, d);
    }
  }

  /** `image.width * target.height` on a Java int. */
  function WidthCross(image: SizeInt, target: SizeInt): int { ToInt(image.width * target.height) }

  /** `image.height * target.width` on a Java int. */
  function HeightCross(image: SizeInt, target: SizeInt): int { ToInt(image.height * target.width) }

  /** The target's width, and the height that keeps the image's proportions. */
  function MatchWidth(image: SizeInt, target: SizeInt): SizeInt
  {
    SizeInt(target.width, IntDivRound(HeightCross(image, target), image.width))
  }

  /** The target's height, and the width that keeps the image's proportions. */
  function MatchHeight(image: SizeInt, target: SizeInt): SizeInt
  {
    SizeInt(IntDivRound(WidthCross(image, target), image.height), target.height)
  }

  /** The size a policy asks for, before the scaling condition; `sameDiagonal` is the floating-point `SAME_DIAGONAL` rule. */
  function TargetSize(image: SizeInt, target: SizeInt, scalingTarget: ScalingTarget,
                      sameDiagonal: (SizeInt, SizeInt) -> SizeInt): (s: SizeInt)
    ensures scalingTarget.STRETCH? ==> s == image
    ensures scalingTarget.WIDTH_TOUCH? ==> s.width == target.width
    ensures scalingTarget.HEIGHT_TOUCH? ==> s.height == target.height
    ensures scalingTarget.INSIDE? || scalingTarget.OUTSIDE? ==> s.width == target.width || s.height == target.height
    ensures scalingTarget.SAME_DIAGONAL? ==> s == sameDiagonal(image, target)
    ensures scalingTarget.SAME_CIRCUMFERENCE? && CircumferenceFits(image, target) ==>
      var sum := target.width + target.height;
      sum <= s.width + s.height <= sum + 1
    ensures scalingTarget.SAME_AREA? && AreaFits(image, target) ==>
      var area := target.width * target.height;
      4 * area < (2 * s.width + 1) * (2 * s.height + 1) &&
      (s.width >= 1 && s.height >= 1 ==> (2 * s.width - 1) * (2 * s.height - 1) <= 4 * area)
  {
    match scalingTarget
    case STRETCH => image
    case INSIDE =>
      if WidthCross(image, target) > HeightCross(image, target) then MatchWidth(image, target)
      else MatchHeight(image, target)
    case OUTSIDE =>
      if WidthCross(image, target) < HeightCross(image, target) then MatchWidth(image, target)
      else MatchHeight(image, target)
    case WIDTH_TOUCH => MatchWidth(image, target)
    case HEIGHT_TOUCH => MatchHeight(image, target)
    case SAME_DIAGONAL => sameDiagonal(image, target)
    case SAME_CIRCUMFERENCE => SameCircumference(image, target)
    case SAME_AREA =>
      if AreaFits(image, target) then SameAreaKeepsTargetArea(image, target); SameArea(image, target)
      else SameArea(image, target)
  }

  /** The sums of SAME_CIRCUMFERENCE are positive for the image and not negative for the target, and no product overflows. */
  predicate CircumferenceFits(image: SizeInt, target: SizeInt)
  {
    var w, h, sum := image.width, image.height, target.width + target.height;
    0 < w && 0 < h && 0 <= sum && IsInt(sum) && IsInt(w * sum + (w + h)) && IsInt(h * sum + (w + h))
  }

  /**
   * SAME_CIRCUMFERENCE: each side scaled by the ratio of the two half
   * circumferences `vSum / iSum` and rounded. Without overflow each side is
   * within 1/2 of its exact share, so the circumference is the target's, or
   * one more from rounding both sides up.
   */
  function SameCircumference(image: SizeInt, target: SizeInt): (s: SizeInt)
    ensures CircumferenceFits(image, target) ==>
      var w, h, sum := image.width, image.height, target.width + target.height;
      (2 * s.width - 1) * (w + h) <= 2 * (w * sum) < (2 * s.width + 1) * (w + h) &&
      (2 * s.height - 1) * (w + h) <= 2 * (h * sum) < (2 * s.height + 1) * (w + h) &&
      sum <= s.width + s.height <= sum + 1
  {
    var vSum := ToInt(target.width + target.height);
    var iSum := ToInt(image.width + image.height);
    var s := SizeInt(IntDivRound(ToInt(image.width * vSum), iSum), IntDivRound(ToInt(image.height * vSum), iSum));
    if CircumferenceFits(image, target) then SharesOfSum(image.width, image.height, target.width + target.height); s
    else s
  }

  /** `intDivRound(x * v, i)` without overflow: the share `x * v / i` rounded half up. */
  lemma RoundedShare(x: int, v: int, i: int)
    requires 0 <= x && 0 <= v && 0 < i && IsInt(x * v + i)
    ensures var r := IntDivRound(ToInt(x * v), i);
      (2 * r - 1) * i <= 2 * (x * v) < (2 * r + 1) * i
  {
    MulIsMonotone(0, x, v);
    assert ToInt(x * v) == x * v;
    IntDivRoundRoundsHalfUp(x * v, i);
  }

  /** Two rounded shares of `v` in proportion `w : h` add up to `v` or `v + 1`. */
  lemma SharesOfSum(w: int, h: int, v: int)
    requires 0 < w && 0 < h && 0 <= v && IsInt(v) && IsInt(w * v + (w + h)) && IsInt(h * v + (w + h))
    ensures var i := w + h;
      var rw, rh := IntDivRound(ToInt(w * v), i), IntDivRound(ToInt(h * v), i);
      (2 * rw - 1) * i <= 2 * (w * v) < (2 * rw + 1) * i &&
      (2 * rh - 1) * i <= 2 * (h * v) < (2 * rh + 1) * i &&
      v <= rw + rh <= v + 1 && IsInt(i)
  {
    var i := w + h;
    MulIsMonotone(0, w, v);
    MulIsMonotone(0, h, v);
    RoundedShare(w, v, i);
    RoundedShare(h, v, i);
    SharesAddUp(w, h, v);
    RoundingsOfSum(IntDivRound(ToInt(w * v), i), IntDivRound(ToInt(h * v), i), w * v, h * v, v, i);
  }

  lemma SharesAddUp(w: int, h: int, v: int)
    ensures w * v + h * v == v * (w + h)
  {
  }

  /** Two numbers rounded half up after division by `i` whose sum is `v * i` round to `v` or `v + 1` together. */
  lemma RoundingsOfSum(r: int, t: int, x: int, y: int, v: int, i: int)
    requires 0 < i && x + y == v * i
    requires (2 * r - 1) * i <= 2 * x < (2 * r + 1) * i && (2 * t - 1) * i <= 2 * y < (2 * t + 1) * i
    ensures v <= r + t <= v + 1
  {
    var p, q := r * i, t * i;
    assert (2 * r - 1) * i == 2 * p - i && (2 * r + 1) * i == 2 * p + i;
    assert (2 * t - 1) * i == 2 * q - i && (2 * t + 1) * i == 2 * q + i;
    assert (r + t - 1) * i == p + q - i && (r + t + 1) * i == p + q + i;
    assert (v + 1) * i == v * i + i;
    LessAfterScaling(r + t - 1, v + 1, i);
    LessAfterScaling(v, r + t + 1, i);
  }

  /** The areas of SAME_AREA: a positive image area and a target area that is not negative, both Java ints. */
  predicate AreaFits(image: SizeInt, target: SizeInt)
  {
    var w, h, area := image.width, image.height, target.width * target.height;
    0 < w && 0 < h && IsInt(w * h) && 0 <= area && IsInt(area)
  }

  /**
   * SAME_AREA as the source computes it: each side scaled by the ratio of the
   * areas `vArea / iArea` itself, not by its square root, so the area of the
   * result is the target's area times `vArea / iArea`.
   */
  function SameAreaAsWritten(image: SizeInt, target: SizeInt): (s: SizeInt)
    ensures AreaFits(image, target) &&
            IsInt(image.width * (target.width * target.height) + image.width * image.height) &&
            IsInt(image.height * (target.width * target.height) + image.width * image.height) ==>
      var i, v := image.width * image.height, target.width * target.height;
      (2 * s.width - 1) * i <= 2 * (image.width * v) < (2 * s.width + 1) * i &&
      (2 * s.height - 1) * i <= 2 * (image.height * v) < (2 * s.height + 1) * i
  {
    var vArea := ToInt(target.width * target.height);
    var iArea := ToInt(image.width * image.height);
    var s := SizeInt(IntDivRound(ToInt(image.width * vArea), iArea), IntDivRound(ToInt(image.height * vArea), iArea));
    if AreaFits(image, target) && IsInt(image.width * vArea + iArea) && IsInt(image.height * vArea + iArea) then
      MulIsMonotone(1, image.width, image.height);
      RoundedShare(image.width, vArea, iArea);
      RoundedShare(image.height, vArea, iArea);
      s
    else s
  }

  /**
   * SAME_AREA corrected: each side scaled by the square root of the area ratio
   * and rounded half up, `round(w * sqrt(vArea / iArea))`, computed exactly on
   * integers as the rounded square root of `w * w * vArea / iArea`. Outside
   * positive sizes it computes what the source does.
   */
  function SameArea(image: SizeInt, target: SizeInt): (s: SizeInt)
    ensures AreaFits(image, target) ==>
      var i, v := image.width * image.height, target.width * target.height;
      IsRoundedSqrt(s.width, image.width * image.width * v, i) &&
      IsRoundedSqrt(s.height, image.height * image.height * v, i)
  {
    var vArea := ToInt(target.width * target.height);
    var iArea := ToInt(image.width * image.height);
    if 0 < image.width && 0 < image.height && 0 < iArea && 0 <= vArea then
      MulIsMonotone(0, image.width * image.width, vArea);
      MulIsMonotone(0, image.height * image.height, vArea);
      SizeInt(RoundSqrt(image.width * image.width * vArea, iArea), RoundSqrt(image.height * image.height * vArea, iArea))
    else SameAreaAsWritten(image, target)
  }

  /** `s` is `sqrt(n / d)` rounded half up: `(s - 1/2)^2 <= n / d < (s + 1/2)^2`, the lower bound void at 0. */
  predicate IsRoundedSqrt(s: int, n: int, d: int)
  {
    0 <= s && (s == 0 || (2 * s - 1) * (2 * s - 1) * d <= 4 * n) && 4 * n < (2 * s + 1) * (2 * s + 1) * d
  }

  /** `sqrt(n / d)` rounded half up. */
  function RoundSqrt(n: nat, d: nat): (s: nat)
    requires d > 0
    ensures IsRoundedSqrt(s, n, d)
  {
    RoundSqrtFrom(n, d, 0)
  }

  /** The rounded square root, searched upwards from a candidate `r` whose lower bound holds. */
  function RoundSqrtFrom(n: nat, d: nat, r: nat): (s: nat)
    requires d > 0 && (r == 0 || (2 * r - 1) * (2 * r - 1) * d <= 4 * n)
    ensures IsRoundedSqrt(s, n, d)
    decreases 4 * n + 1 - r
  {
    if 4 * n < (2 * r + 1) * (2 * r + 1) * d then r
    else
      MulIsMonotone(1, (2 * r + 1) * d, 2 * r + 1);
      MulIsMonotone(1, d, 2 * r + 1);
      assert (2 * r + 1) * ((2 * r + 1) * d) == (2 * r + 1) * (2 * r + 1) * d;
      RoundSqrtFrom(n, d, r + 1)
  }

  /** `0 <= a <= b` gives `a * a * d <= b * b * d` for `d >= 0`. */
  lemma SquareIsMonotone(a: int, b: int, d: int)
    requires 0 <= a <= b && 0 <= d
    ensures a * a * d <= b * b * d
  {
    MulIsMonotone(a, b, a);
    MulIsMonotone(a, b, b);
    MulIsMonotone(a * a, b * b, d);
  }

  /** The rounded square root is the only number with its bounds. */
  lemma {:induction false} RoundedSqrtIsUnique(s: int, t: int, n: int, d: int)
    requires 0 < d && IsRoundedSqrt(s, n, d) && IsRoundedSqrt(t, n, d)
    ensures s == t
  {
    if s < t {
      SquareIsMonotone(2 * s + 1, 2 * t - 1, d);
    } else if t < s {
      SquareIsMonotone(2 * t + 1, 2 * s - 1, d);
    }
  }

  /** `0 <= a < b` and `0 <= c < e` give `a * c < b * e`. */
  lemma ProductIsStrictlyMonotone(a: int, b: int, c: int, e: int)
    requires 0 <= a < b && 0 <= c < e
    ensures a * c < b * e
  {
    MulIsMonotone(a, b, c);
    MulIsMonotone(c, e, b);
    LessAfterScaling(c, e, b);
    assert b * c < b * e by { MulIsMonotone(c + 1, e, b); }
  }

  /** `0 <= a <= b` and `0 <= c <= e` give `a * c <= b * e`. */
  lemma ProductIsMonotone(a: int, b: int, c: int, e: int)
    requires 0 <= a <= b && 0 <= c <= e
    ensures a * c <= b * e
  {
    MulIsMonotone(a, b, c);
    MulIsMonotone(c, e, b);
  }

  /** Comparing the squares of two numbers, the second not negative, compares the numbers. */
  lemma SquareLessIsLess(x: int, y: int)
    requires 0 <= y && x * x < y * y
    ensures x < y
  {
    if x >= y {
      SquareIsMonotone(y, x, 1);
    }
  }

  /**
   * The corrected SAME_AREA keeps the target's area up to rounding: with both
   * sides rounded half up, `(w' - 1/2)(h' - 1/2) <= vArea < (w' + 1/2)(h' + 1/2)`.
   */
  lemma {:induction false} SameAreaKeepsTargetArea(image: SizeInt, target: SizeInt)
    requires AreaFits(image, target)
    ensures var s, area := SameArea(image, target), target.width * target.height;
      4 * area < (2 * s.width + 1) * (2 * s.height + 1) &&
      (s.width >= 1 && s.height >= 1 ==> (2 * s.width - 1) * (2 * s.height - 1) <= 4 * area)
  {
    var s, v := SameArea(image, target), target.width * target.height;
    var w, h := image.width, image.height;
    MulIsMonotone(1, w, h);
    MulIsMonotone(0, w * w, v);
    MulIsMonotone(0, h * h, v);
    SquaredSharesMultiply(w, h, v);
    AreaBelowRoundedUp(2 * s.width + 1, 2 * s.height + 1, 4 * (w * w * v), 4 * (h * h * v), v, w * h);
    if s.width >= 1 && s.height >= 1 {
      AreaAboveRoundedDown(2 * s.width - 1, 2 * s.height - 1, 4 * (w * w * v), 4 * (h * h * v), v, w * h);
    }
  }

  /** The squared shares of the two sides multiply to the squared scaled area. */
  lemma SquaredSharesMultiply(w: int, h: int, v: int)
    ensures 4 * (w * w * v) * (4 * (h * h * v)) == (4 * v * (w * h)) * (4 * v * (w * h))
  {
  }

  /** From `p < a^2 i` and `q < b^2 i` with `p q = (4 v i)^2`: `4 v < a b`. */
  lemma AreaBelowRoundedUp(a: int, b: int, p: int, q: int, v: int, i: int)
    requires 0 < a && 0 < b && 0 < i && 0 <= p && 0 <= q && 0 <= v
    requires p < a * a * i && q < b * b * i && p * q == (4 * v * i) * (4 * v * i)
    ensures 4 * v < a * b
  {
    ProductIsStrictlyMonotone(p, a * a * i, q, b * b * i);
    assert a * a * i * (b * b * i) == (a * b * i) * (a * b * i);
    MulIsMonotone(0, a * b, i);
    SquareLessIsLess(4 * v * i, a * b * i);
    assert 4 * v * i == (4 * v) * i && a * b * i == (a * b) * i;
    LessAfterScaling(4 * v, a * b, i);
  }

  /** From `c^2 i <= p` and `e^2 i <= q` with `p q = (4 v i)^2`: `c e <= 4 v`. */
  lemma AreaAboveRoundedDown(c: int, e: int, p: int, q: int, v: int, i: int)
    requires 0 < c && 0 < e && 0 < i && 0 <= v
    requires c * c * i <= p && e * e * i <= q && p * q == (4 * v * i) * (4 * v * i)
    ensures c * e <= 4 * v
  {
    MulIsMonotone(0, c * c, i);
    MulIsMonotone(0, e * e, i);
    ProductIsMonotone(c * c * i, p, e * e * i, q);
    assert c * c * i * (e * e * i) == (c * e * i) * (c * e * i);
    if c * e > 4 * v {
      assert (4 * v) * i < (c * e) * i by { MulIsMonotone(4 * v + 1, c * e, i); }
      MulIsMonotone(0, 4 * v, i);
      ProductIsStrictlyMonotone(4 * v * i, c * e * i, 4 * v * i, c * e * i);
      assert false;
    }
  }

  /**
   * A 10 x 10 image asked for the area of a 20 x 20 target: the source's
   * SAME_AREA gives 40 x 40, four times the target's area, where the corrected
   * rule gives 20 x 20.
   */
  lemma SameAreaAsWrittenMissesArea(sameDiagonal: (SizeInt, SizeInt) -> SizeInt)
    ensures SameAreaAsWritten(SizeInt(10, 10), SizeInt(20, 20)) == SizeInt(40, 40)
    ensures SameArea(SizeInt(10, 10), SizeInt(20, 20)) == SizeInt(20, 20)
    ensures TargetSize(SizeInt(10, 10), SizeInt(20, 20), SAME_AREA, sameDiagonal) == SizeInt(20, 20)
  {
    assert IsRoundedSqrt(20, 10 * 10 * 400, 100);
    RoundedSqrtIsUnique(SameArea(SizeInt(10, 10), SizeInt(20, 20)).width, 20, 10 * 10 * 400, 100);
    RoundedSqrtIsUnique(SameArea(SizeInt(10, 10), SizeInt(20, 20)).height, 20, 10 * 10 * 400, 100);
  }

  /** The scaling condition: keep the image's own size when the policy's size is not wanted. */
  function ApplyCondition(image: SizeInt, size: SizeInt, condition: ScalingCondition): (r: SizeInt)
    ensures r == image || r == size
    ensures condition.ALWAYS? ==> r == size
    ensures condition.NEVER? ==> r == image
    ensures condition.ONLY_IF_LARGER? ==>
      (r == size <== size.width < image.width || size.height < image.height) &&
      (r == image <== size.width >= image.width && size.height >= image.height)
    ensures condition.ONLY_IF_SMALLER? ==>
      (r == size <== size.width > image.width || size.height > image.height) &&
      (r == image <== size.width <= image.width && size.height <= image.height)
  {
    match condition
    case ALWAYS => size
    case NEVER => image
    case ONLY_IF_LARGER =>
      if size.width >= image.width && size.height >= image.height then image else size
    case ONLY_IF_SMALLER =>
      if size.width <= image.width && size.height <= image.height then image else size
  }

  /** `getScalingSize(imageSize, targetSize, scalingTarget, scalingCondition)` */
  function GetScalingSize(image: SizeInt, target: SizeInt, scalingTarget: ScalingTarget,
                          condition: ScalingCondition, sameDiagonal: (SizeInt, SizeInt) -> SizeInt): (r: SizeInt)
    ensures r == image || r == TargetSize(image, target, scalingTarget, sameDiagonal)
    ensures condition.ALWAYS? ==> r == TargetSize(image, target, scalingTarget, sameDiagonal)
    ensures condition.NEVER? ==> r == image
  {
    ApplyCondition(image, TargetSize(image, target, scalingTarget, sameDiagonal), condition)
  }

  /** `getScalingSize(imageSize, targetSize)`: fit inside, always. */
  function GetScalingSizeInside(image: SizeInt, target: SizeInt, sameDiagonal: (SizeInt, SizeInt) -> SizeInt): (r: SizeInt)
    ensures r.width == target.width || r.height == target.height
  {
    GetScalingSize(image, target, INSIDE, ALWAYS, sameDiagonal)
  }

  /** `getScalingSize(imageSize, targetSize, scalingTarget)`: always. */
  function GetScalingSizeAlways(image: SizeInt, target: SizeInt, scalingTarget: ScalingTarget,
                                sameDiagonal: (SizeInt, SizeInt) -> SizeInt): (r: SizeInt)
    ensures scalingTarget.STRETCH? ==> r == image
    ensures scalingTarget.WIDTH_TOUCH? ==> r.width == target.width
    ensures scalingTarget.HEIGHT_TOUCH? ==> r.height == target.height
    ensures scalingTarget.INSIDE? || scalingTarget.OUTSIDE? ==> r.width == target.width || r.height == target.height
  {
    GetScalingSize(image, target, scalingTarget, ALWAYS, sameDiagonal)
  }

  /** Positive sizes whose cross products, plus the rounding half, stay within an int. */
  predicate FitsInInt(image: SizeInt, target: SizeInt)
  {
    image.width > 0 && image.height > 0 && target.width > 0 && target.height > 0 &&
    IsInt(image.height * target.width + image.width) && IsInt(image.width * target.height + image.height)
  }

  lemma CrossProductsFit(image: SizeInt, target: SizeInt)
    requires FitsInInt(image, target)
    ensures WidthCross(image, target) == image.width * target.height > 0
    ensures HeightCross(image, target) == image.height * target.width > 0
  {
    MulIsMonotone(1, image.width, target.height);
    MulIsMonotone(1, image.height, target.width);
  }

  /** The height of `MatchWidth` is the image's height scaled by `target.width / image.width`, rounded. */
  predicate HeightInProportion(image: SizeInt, target: SizeInt, r: SizeInt)
  {
    (2 * r.height - 1) * image.width <= 2 * (image.height * target.width) < (2 * r.height + 1) * image.width
  }

  /** The width of `MatchHeight` is the image's width scaled by `target.height / image.height`, rounded. */
  predicate WidthInProportion(image: SizeInt, target: SizeInt, r: SizeInt)
  {
    (2 * r.width - 1) * image.height <= 2 * (image.width * target.height) < (2 * r.width + 1) * image.height
  }

  lemma MatchWidthIsProportional(image: SizeInt, target: SizeInt)
    requires FitsInInt(image, target)
    ensures MatchWidth(image, target).width == target.width
    ensures HeightInProportion(image, target, MatchWidth(image, target))
  {
    CrossProductsFit(image, target);
    IntDivRoundRoundsHalfUp(image.height * target.width, image.width);
  }

  lemma MatchHeightIsProportional(image: SizeInt, target: SizeInt)
    requires FitsInInt(image, target)
    ensures MatchHeight(image, target).height == target.height
    ensures WidthInProportion(image, target, MatchHeight(image, target))
  {
    CrossProductsFit(image, target);
    IntDivRoundRoundsHalfUp(image.width * target.height, image.height);
  }

  /** When the width is the tighter side, the target's width with a proportional height stays within the target. */
  lemma MatchWidthFitsWithin(image: SizeInt, target: SizeInt)
    requires FitsInInt(image, target) && WidthCross(image, target) > HeightCross(image, target)
    ensures var r := MatchWidth(image, target);
      r.width == target.width && HeightInProportion(image, target, r) && r.height <= target.height
  {
    CrossProductsFit(image, target);
    MatchWidthIsProportional(image, target);
    RoundedAtMost(image.height * target.width, target.height, MatchWidth(image, target).height, image.width);
  }

  /** When the height is the tighter side, the target's height with a proportional width stays within the target. */
  lemma MatchHeightFitsWithin(image: SizeInt, target: SizeInt)
    requires FitsInInt(image, target) && WidthCross(image, target) <= HeightCross(image, target)
    ensures var r := MatchHeight(image, target);
      r.height == target.height && WidthInProportion(image, target, r) && r.width <= target.width
  {
    CrossProductsFit(image, target);
    MatchHeightIsProportional(image, target);
    RoundedAtMost(image.width * target.height, target.width, MatchHeight(image, target).width, image.height);
  }

  /** When the width is the looser side, the target's width with a proportional height covers the target. */
  lemma MatchWidthCovers(image: SizeInt, target: SizeInt)
    requires FitsInInt(image, target) && WidthCross(image, target) < HeightCross(image, target)
    ensures var r := MatchWidth(image, target);
      r.width == target.width && HeightInProportion(image, target, r) && r.height >= target.height
  {
    CrossProductsFit(image, target);
    MatchWidthIsProportional(image, target);
    RoundedAtLeast(image.height * target.width, target.height, MatchWidth(image, target).height, image.width);
  }

  /** When the height is the looser side, the target's height with a proportional width covers the target. */
  lemma MatchHeightCovers(image: SizeInt, target: SizeInt)
    requires FitsInInt(image, target) && WidthCross(image, target) >= HeightCross(image, target)
    ensures var r := MatchHeight(image, target);
      r.height == target.height && WidthInProportion(image, target, r) && r.width >= target.width
  {
    CrossProductsFit(image, target);
    MatchHeightIsProportional(image, target);
    RoundedAtLeast(image.width * target.height, target.width, MatchHeight(image, target).width, image.height);
  }

  /**
   * INSIDE: the result takes one dimension of the target, and the other,
   * scaled in proportion, stays within the target.
   */
  lemma InsideFitsWithin(image: SizeInt, target: SizeInt, sameDiagonal: (SizeInt, SizeInt) -> SizeInt)
    requires FitsInInt(image, target)
    ensures var r := GetScalingSize(image, target, INSIDE, ALWAYS, sameDiagonal);
      (r.width == target.width && HeightInProportion(image, target, r) && r.height <= target.height) ||
      (r.height == target.height && WidthInProportion(image, target, r) && r.width <= target.width)
  {
    if WidthCross(image, target) > HeightCross(image, target) {
      MatchWidthFitsWithin(image, target);
    } else {
      MatchHeightFitsWithin(image, target);
    }
  }

  /** OUTSIDE: the result takes one dimension of the target, and the other, scaled in proportion, covers the target. */
  lemma OutsideCoversTarget(image: SizeInt, target: SizeInt, sameDiagonal: (SizeInt, SizeInt) -> SizeInt)
    requires FitsInInt(image, target)
    ensures var r := GetScalingSize(image, target, OUTSIDE, ALWAYS, sameDiagonal);
      (r.width == target.width && HeightInProportion(image, target, r) && r.height >= target.height) ||
      (r.height == target.height && WidthInProportion(image, target, r) && r.width >= target.width)
  {
    if WidthCross(image, target) < HeightCross(image, target) {
      MatchWidthCovers(image, target);
    } else {
      MatchHeightCovers(image, target);
    }
  }

  /** STRETCH keeps the image's own size; WIDTH_TOUCH and HEIGHT_TOUCH take one target dimension and scale the other in proportion. */
  lemma TouchPoliciesMatchOneDimension(image: SizeInt, target: SizeInt, sameDiagonal: (SizeInt, SizeInt) -> SizeInt)
    requires FitsInInt(image, target)
    ensures GetScalingSize(image, target, STRETCH, ALWAYS, sameDiagonal) == image
    ensures var r := GetScalingSize(image, target, WIDTH_TOUCH, ALWAYS, sameDiagonal);
      r.width == target.width && HeightInProportion(image, target, r)
    ensures var r := GetScalingSize(image, target, HEIGHT_TOUCH, ALWAYS, sameDiagonal);
      r.height == target.height && WidthInProportion(image, target, r)
  {
    MatchWidthIsProportional(image, target);
    MatchHeightIsProportional(image, target);
  }

  /**
   * The conditions: NEVER keeps the image's size; ONLY_IF_LARGER keeps it when
   * the policy would not shrink the image in either dimension, ONLY_IF_SMALLER
   * when it would not enlarge it in either; ALWAYS takes the policy's size.
   */
  lemma ConditionsKeepImageSize(image: SizeInt, target: SizeInt, scalingTarget: ScalingTarget,
                                sameDiagonal: (SizeInt, SizeInt) -> SizeInt)
    ensures var s := TargetSize(image, target, scalingTarget, sameDiagonal);
      GetScalingSize(image, target, scalingTarget, ALWAYS, sameDiagonal) == s &&
      GetScalingSize(image, target, scalingTarget, NEVER, sameDiagonal) == image &&
      GetScalingSize(image, target, scalingTarget, ONLY_IF_LARGER, sameDiagonal) ==
        (if s.width >= image.width && s.height >= image.height then image else s) &&
      GetScalingSize(image, target, scalingTarget, ONLY_IF_SMALLER, sameDiagonal) ==
        (if s.width <= image.width && s.height <= image.height then image else s)
    ensures var r := GetScalingSize(image, target, scalingTarget, ONLY_IF_LARGER, sameDiagonal);
      r == image || r.width < image.width || r.height < image.height
    ensures var r := GetScalingSize(image, target, scalingTarget, ONLY_IF_SMALLER, sameDiagonal);
      r == image || r.width > image.width || r.height > image.height
  {
  }

  /** A rounded quotient that is exact stays exact: `intDivRound(a * d, d) == a`. */
  lemma ExactQuotientIsKept(a: int, d: int)
    requires 0 <= a && 0 < d && IsInt(a * d + d)
    ensures IntDivRound(a * d, d) == a
  {
    var n := a * d;
    MulIsMonotone(0, a, d);
    var h := Quot(d, 2);
    assert 0 <= h < d;
    assert ToInt(n + h) == n + h;
    var q := Quot(n + h, d);
    assert q * d <= n + h < (q + 1) * d;
    assert (a + 1) * d == n + d;
    LessAfterScaling(q, a + 1, d);
    LessAfterScaling(a, q + 1, d);
  }

  /** The products SAME_CIRCUMFERENCE and SAME_AREA form for an image against itself, plus the rounding, fit in an int. */
  predicate OwnProductsFit(image: SizeInt)
  {
    var w, h := image.width, image.height;
    var sum, area := w + h, w * h;
    0 < w && 0 < h && IsInt(w * sum + sum) && IsInt(h * sum + sum) && IsInt(w * area + area) && IsInt(h * area + area)
  }

  /** SAME_CIRCUMFERENCE keeps a size that already has the target's circumference: asked for its own size, it returns it. */
  lemma SameCircumferenceKeepsOwnSize(image: SizeInt, sameDiagonal: (SizeInt, SizeInt) -> SizeInt)
    requires OwnProductsFit(image)
    ensures TargetSize(image, image, SAME_CIRCUMFERENCE, sameDiagonal) == image
  {
    var w, h := image.width, image.height;
    var sum := w + h;
    MulIsMonotone(0, w, sum);
    MulIsMonotone(0, h, sum);
    assert ToInt(sum) == sum && ToInt(w * sum) == w * sum && ToInt(h * sum) == h * sum;
    ExactQuotientIsKept(w, sum);
    ExactQuotientIsKept(h, sum);
  }

  /**
   * SAME_AREA keeps a size that already has the target's area: asked for its
   * own size, the corrected rule returns it, and so does the source's rule.
   */
  lemma SameAreaKeepsOwnSize(image: SizeInt, sameDiagonal: (SizeInt, SizeInt) -> SizeInt)
    requires OwnProductsFit(image)
    ensures TargetSize(image, image, SAME_AREA, sameDiagonal) == image
    ensures SameAreaAsWritten(image, image) == image
  {
    var w, h := image.width, image.height;
    var area := w * h;
    MulIsMonotone(1, w, h);
    MulIsMonotone(0, w, area);
    MulIsMonotone(0, h, area);
    assert ToInt(area) == area && ToInt(w * area) == w * area && ToInt(h * area) == h * area;
    ExactQuotientIsKept(w, area);
    ExactQuotientIsKept(h, area);
    var s := SameArea(image, image);
    ExactSqrtIsKept(w, area);
    ExactSqrtIsKept(h, area);
    RoundedSqrtIsUnique(s.width, w, w * w * area, area);
    RoundedSqrtIsUnique(s.height, h, h * h * area, area);
  }

  /** The rounded square root of `w * w * i / i` is `w`. */
  lemma ExactSqrtIsKept(w: int, i: int)
    requires 0 < w && 0 < i
    ensures IsRoundedSqrt(w, w * w * i, i)
  {
    assert (2 * w - 1) * (2 * w - 1) == 4 * (w * w) - 4 * w + 1;
    assert (2 * w + 1) * (2 * w + 1) == 4 * (w * w) + 4 * w + 1;
    MulIsMonotone((2 * w - 1) * (2 * w - 1), 4 * (w * w), i);
    MulIsMonotone(4 * (w * w) + 1, (2 * w + 1) * (2 * w + 1), i);
    assert 4 * (w * w * i) == 4 * (w * w) * i;
  }

  /** The shorter overloads are INSIDE and ALWAYS. */
  lemma OverloadDefaults(image: SizeInt, target: SizeInt, scalingTarget: ScalingTarget,
                         sameDiagonal: (SizeInt, SizeInt) -> SizeInt)
    ensures GetScalingSizeInside(image, target, sameDiagonal) == TargetSize(image, target, INSIDE, sameDiagonal)
    ensures GetScalingSizeAlways(image, target, scalingTarget, sameDiagonal) == TargetSize(image, target, scalingTarget, sameDiagonal)
  {
  }

  /** The greatest of the four size ratios, in doubles (a zero size gives an infinity or NaN). */
  function ScaleFactor(image: SizeInt, newSize: SizeInt): Double
  {
    MaxD(MaxD(DivInts(newSize.width, image.width), DivInts(newSize.height, image.height)),
         MaxD(DivInts(image.width, newSize.width), DivInts(image.height, newSize.height)))
  }

  /** `bestResamplingCurve`: Lanczos3 from a factor of 4, the Catmull-Rom cubic from 2, else linear. */
  function BestResamplingCurve(image: SizeInt, newSize: SizeInt): (c: Curve)
    ensures c == Lanczos3 || c == CUBIC || c == Linear
    ensures image == newSize && image.width != 0 && image.height != 0 ==> c == Linear
  {
    var factor := ScaleFactor(image, newSize);
    if factor.AtLeast(4.0) then Lanczos3
    else if factor.AtLeast(2.0) then CUBIC
    else Linear
  }

  /** Enlarging and shrinking between two sizes call for the same curve. */
  lemma BestCurveIsSymmetric(a: SizeInt, b: SizeInt)
    ensures BestResamplingCurve(a, b) == BestResamplingCurve(b, a)
  {
    var f1, f2 := ScaleFactor(a, b), ScaleFactor(b, a);
    assert f1.NaN? <==> f2.NaN?;
    assert f1.AtLeast(4.0) <==> f2.AtLeast(4.0);
    assert f1.AtLeast(2.0) <==> f2.AtLeast(2.0);
  }

  /** The largest deviation from 1:1 between two positive sizes, on either axis, in either direction. */
  function Deviation(image: SizeInt, newSize: SizeInt): real
    requires image.width > 0 && image.height > 0 && newSize.width > 0 && newSize.height > 0
  {
    var rw, rh := newSize.width as real / image.width as real, newSize.height as real / image.height as real;
    RMax(RMax(rw, rh), RMax(1.0 / rw, 1.0 / rh))
  }

  function RMax(a: real, b: real): real { if a >= b then a else b }

  /** For positive sizes the curve follows the largest deviation from 1:1, which is at least 1. */
  lemma BestCurveFollowsDeviation(image: SizeInt, newSize: SizeInt)
    requires image.width > 0 && image.height > 0 && newSize.width > 0 && newSize.height > 0
    ensures Deviation(image, newSize) >= 1.0
    ensures BestResamplingCurve(image, newSize) ==
      if Deviation(image, newSize) >= 4.0 then Lanczos3
      else if Deviation(image, newSize) >= 2.0 then CUBIC
      else Linear
  {
    var iw, ih, nw, nh := image.width as real, image.height as real, newSize.width as real, newSize.height as real;
    ReciprocalOfRatio(nw, iw);
    ReciprocalOfRatio(nh, ih);
    var rw, rh := nw / iw, nh / ih;
    MaxOfFinites(rw, rh);
    MaxOfFinites(iw / nw, ih / nh);
    MaxOfFinites(RMax(rw, rh), RMax(iw / nw, ih / nh));
    assert ScaleFactor(image, newSize) == Finite(Deviation(image, newSize));
  }

  /** The reciprocal of a positive ratio is the inverted ratio, and one of the two is at least 1. */
  lemma ReciprocalOfRatio(a: real, b: real)
    requires a > 0.0 && b > 0.0
    ensures 1.0 / (a / b) == b / a
    ensures a / b >= 1.0 || b / a > 1.0
  {
    assert (a / b) * (b / a) == 1.0;
    if a / b < 1.0 {
      assert a < b;
    }
  }

  /** `Math.max` of two finite doubles is the larger. */
  lemma MaxOfFinites(x: real, y: real)
    ensures MaxD(Finite(x), Finite(y)) == Finite(RMax(x, y))
  {
  }
}
