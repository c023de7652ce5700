/**
 * `AbstractImageResizer`: the user's settings (output size, scale factor,
 * offset, and the resampler's thread count), their validation, the working
 * sizes, scales and offsets derived from them for one source image, and the
 * frame-by-frame resizing of an animation.
 *
 * Doubles are `Java.Double` values (a real, NaN or an infinity); a setting
 * that is `null` in Java is `None`.  An exception is a `Fail` outcome naming
 * its class and message prefix, and leaves the object unchanged.
 */
module ImageResizers {
  import opened Java
  import opened Wrappers
  import opened SizeInts
  import AnimationFrames

  /** A width and height in doubles. */
  datatype SizeDouble = SizeDouble(width: Double, height: Double)

  /** A point in doubles. */
  datatype PointDouble = PointDouble(x: Double, y: Double)

  const INT_MAX: int := 0x7FFF_FFFF
  const INT_MIN: int := -0x8000_0000

  /**
   * `setOutputSize`'s check: a zero dimension is refused first, a negative one
   * next; no size at all is allowed.
   */
  function CheckOutputSize(outputSize: Option<SizeInt>): (r: Outcome)
    ensures r.Pass? <==> outputSize.None? || (outputSize.value.width > 0 && outputSize.value.height > 0)
    ensures outputSize.Some? && (outputSize.value.width == 0 || outputSize.value.height == 0) ==>
      r == Fail("IllegalArgumentException: Dimension")
  {
    match outputSize
    case None => Pass
    case Some(s) =>
      if s.width == 0 || s.height == 0 then Fail("IllegalArgumentException: Dimension")
      else if s.width < 0 || s.height < 0 then Fail("IllegalArgumentException: Negative values won't flip the image")
      else Pass
  }

  /** Neither NaN nor an infinity. */
  predicate IsFinite(d: Double) { d.Finite? }

  /**
   * `setOutputScaleFactor`'s check: a NaN or infinite component is refused
   * first, then a component that is not positive.
   */
  function CheckScaleFactor(factor: Option<SizeDouble>): (r: Outcome)
    ensures r.Pass? <==>
      factor.None? ||
      (IsFinite(factor.value.width) && IsFinite(factor.value.height) &&
       factor.value.width.value > 0.0 && factor.value.height.value > 0.0)
    ensures factor.Some? && !(IsFinite(factor.value.width) && IsFinite(factor.value.height)) ==>
      r == Fail("IllegalArgumentException: outputScaleFactor is degenerate")
  {
    match factor
    case None => Pass
    case Some(f) =>
      if !IsFinite(f.width) || !IsFinite(f.height) then Fail("IllegalArgumentException: outputScaleFactor is degenerate")
      else if f.width.value <= 0.0 || f.height.value <= 0.0 then Fail("IllegalArgumentException: Negative values won't flip the image")
      else Pass
  }

  /** `setOffset`'s check: only a NaN or infinite component is refused; any finite offset, negative ones too, is allowed. */
  function CheckOffset(offset: Option<PointDouble>): (r: Outcome)
    ensures r.Pass? <==> offset.None? || (IsFinite(offset.value.x) && IsFinite(offset.value.y))
  {
    match offset
    case None => Pass
    case Some(p) =>
      if !IsFinite(p.x) || !IsFinite(p.y) then Fail("IllegalArgumentException: offset is degenerate")
      else Pass
  }

  /** `setNumThreads`'s check (`AbstractImageResampler`): no negative count; zero means one per processor. */
  function CheckNumThreads(numThreads: int): (r: Outcome)
    ensures r.Pass? <==> numThreads >= 0
  {
    if numThreads < 0 then Fail("IllegalArgumentException: numThreads can't be negative") else Pass
  }

  /** `(int)Math.ceil(x)`: the ceiling, saturated to the int range. */
  function CeilToInt(x: real): (r: int)
    ensures IsInt(r)
    ensures IsInt(Ceil(x)) ==> r == Ceil(x)
    ensures Ceil(x) > INT_MAX ==> r == INT_MAX
  {
    var c := Ceil(x);
    if c > INT_MAX then INT_MAX else if c < INT_MIN then INT_MIN else c
  }

  /** `Math.max(1, (int)Math.ceil(src * scale))`. */
  function ScaledSize(src: int, scale: real): int
  {
    Max(1, CeilToInt(src as real * scale))
  }

  /** The default offset of an axis: 0 for an even size, 0.5 for an odd one (`(size & 1) == 0 ? 0 : 0.5`). */
  function DefaultOffset(size: int): Double
  {
    if size % 2 == 0 then Finite(0.0) else Finite(0.5)
  }

  /** The working data that `calculateDstSizeAndScale` derives for one image. */
  datatype Plan = Plan(srcWidth: int, srcHeight: int, dstWidth: int, dstHeight: int,
                       widthScaleFactor: Double, heightScaleFactor: Double,
                       offsetX: Double, offsetY: Double)

  /** Every component of a set scale factor is a finite double, as `CheckScaleFactor` ensures. */
  predicate ScaleIsFinite(factor: Option<SizeDouble>)
  {
    factor.Some? ==> IsFinite(factor.value.width) && IsFinite(factor.value.height)
  }

  /**
   * `calculateDstSizeAndScale`: the destination size is the explicit size, or
   * else the scaled source size; the scale is the explicit factor, or else
   * destination over source; the offset is the explicit one, or else the
   * default for the destination size.  With neither a size nor a factor it is
   * an `IllegalStateException`.
   */
  function DstSizeAndScale(src: SizeInt, outputSize: Option<SizeInt>, outputScaleFactor: Option<SizeDouble>,
                           outputOffset: Option<PointDouble>): (r: Result<Plan>)
    requires ScaleIsFinite(outputScaleFactor)
    ensures r.Failure? <==> outputSize.None? && outputScaleFactor.None?
  {
    if outputSize.None? && outputScaleFactor.None? then
      Failure("IllegalStateException: Either or both of outputSize and outputScaleFactor need to be set first.")
    else
      var dstWidth := if outputSize.Some? then outputSize.value.width
                      else ScaledSize(src.width, outputScaleFactor.value.width.value);
      var dstHeight := if outputSize.Some? then outputSize.value.height
                       else ScaledSize(src.height, outputScaleFactor.value.height.value);
      var widthScale := if outputScaleFactor.Some? then outputScaleFactor.value.width
                        else DivInts(dstWidth, src.width);
      var heightScale := if outputScaleFactor.Some? then outputScaleFactor.value.height
                         else DivInts(dstHeight, src.height);
      var offsetX := if outputOffset.Some? then outputOffset.value.x else DefaultOffset(dstWidth);
      var offsetY := if outputOffset.Some? then outputOffset.value.y else DefaultOffset(dstHeight);
      Success(Plan(src.width, src.height, dstWidth, dstHeight, widthScale, heightScale, offsetX, offsetY))
  }

  /**
   * Under validated settings the destination size is at least one pixel in
   * each dimension, and it is the explicit size whenever one is set.
   */
  lemma DstSizeIsPositive(src: SizeInt, outputSize: Option<SizeInt>, outputScaleFactor: Option<SizeDouble>,
                          outputOffset: Option<PointDouble>)
    requires CheckOutputSize(outputSize).Pass? && CheckScaleFactor(outputScaleFactor).Pass?
    requires outputSize.Some? || outputScaleFactor.Some?
    ensures var p := DstSizeAndScale(src, outputSize, outputScaleFactor, outputOffset).value;
      p.dstWidth >= 1 && p.dstHeight >= 1 &&
      (outputSize.Some? ==> p.dstWidth == outputSize.value.width && p.dstHeight == outputSize.value.height)
  {
  }

  /**
   * A destination size computed from a scale factor is the scaled source size
   * rounded up: `dst - 1 < src * scale <= dst`, for a positive source size and
   * as long as the rounded-up size is an int.
   */
  lemma ScaledSizeRoundsUp(src: int, scale: real)
    requires src >= 1 && scale > 0.0 && IsInt(Ceil(src as real * scale))
    ensures var dst := ScaledSize(src, scale);
      (dst - 1) as real < src as real * scale <= dst as real
  {
    MulRealMonotone(0.0, 1.0, scale);
    MulRealMonotone(1.0, src as real, scale);
  }

  /**
   * Without an explicit factor the scale is destination over source, so for a
   * positive source size the source scaled by it is exactly the destination.
   */
  lemma DerivedScaleMapsSourceOntoDestination(src: SizeInt, outputSize: Option<SizeInt>,
                                              outputOffset: Option<PointDouble>)
    requires outputSize.Some? && src.width > 0 && src.height > 0
    ensures var p := DstSizeAndScale(src, outputSize, None, outputOffset).value;
      p.widthScaleFactor.Finite? && p.heightScaleFactor.Finite? &&
      src.width as real * p.widthScaleFactor.value == p.dstWidth as real &&
      src.height as real * p.heightScaleFactor.value == p.dstHeight as real
  {
    var p := DstSizeAndScale(src, outputSize, None, outputOffset).value;
    assert p.widthScaleFactor == DivInts(outputSize.value.width, src.width);
    assert p.heightScaleFactor == DivInts(outputSize.value.height, src.height);
    TimesQuotient(src.width as real, outputSize.value.width as real);
    TimesQuotient(src.height as real, outputSize.value.height as real);
  }

  lemma TimesQuotient(d: real, n: real)
    requires d != 0.0
    ensures d * (n / d) == n
  {
  }

  /**
   * An explicit factor is used as it is; without an explicit offset, each axis
   * is offset by 0 for an even destination size and by 0.5 for an odd one.
   */
  lemma ExplicitFactorAndDefaultOffset(src: SizeInt, outputSize: Option<SizeInt>, factor: SizeDouble)
    requires IsFinite(factor.width) && IsFinite(factor.height)
    ensures var p := DstSizeAndScale(src, outputSize, Some(factor), None).value;
      p.widthScaleFactor == factor.width && p.heightScaleFactor == factor.height &&
      p.offsetX == (if p.dstWidth % 2 == 0 then Finite(0.0) else Finite(0.5)) &&
      p.offsetY == (if p.dstHeight % 2 == 0 then Finite(0.0) else Finite(0.5))
  {
  }

  /** An odd destination size puts the default offset half a pixel in; an even one does not. */
  lemma DefaultOffsetCentresOddSizes(size: int)
    ensures DefaultOffset(size).Finite?
    ensures DefaultOffset(size).value * 2.0 == (size % 2) as real
  {
  }

  /** The resizer's settings and the working data of the image being resized. */
  class ImageResizer {
    var outputSize: Option<SizeInt>
    var outputScaleFactor: Option<SizeDouble>
    var outputOffset: Option<PointDouble>
    var numThreads: int

    var srcWidth: int
    var srcHeight: int
    var dstWidth: int
    var dstHeight: int
    var widthScaleFactor: Double
    var heightScaleFactor: Double
    var offsetX: Double
    var offsetY: Double

    /** Every setting has passed its setter's check. */
    predicate Valid()
      reads this
    {
      CheckOutputSize(outputSize).Pass? && CheckScaleFactor(outputScaleFactor).Pass? &&
      CheckOffset(outputOffset).Pass? && CheckNumThreads(numThreads).Pass?
    }

    /** The working data as one value. */
    function Working(): Plan
      reads this
    {
      Plan(srcWidth, srcHeight, dstWidth, dstHeight, widthScaleFactor, heightScaleFactor, offsetX, offsetY)
    }

    constructor()
      ensures Valid()
      ensures outputSize.None? && outputScaleFactor.None? && outputOffset.None? && numThreads == 0
      ensures Working() == Plan(0, 0, 0, 0, Finite(0.0), Finite(0.0), Finite(0.0), Finite(0.0))
    {
      outputSize, outputScaleFactor, outputOffset, numThreads := None, None, None, 0;
      srcWidth, srcHeight, dstWidth, dstHeight := 0, 0, 0, 0;
      widthScaleFactor, heightScaleFactor, offsetX, offsetY := Finite(0.0), Finite(0.0), Finite(0.0), Finite(0.0);
    }

    /** `setOutputSize`: store the size if it passes the check, else fail and change nothing. */
    method SetOutputSize(size: Option<SizeInt>) returns (r: Outcome)
      requires Valid()
      modifies this
      ensures Valid() && r == CheckOutputSize(size)
      ensures r.Pass? ==> outputSize == size && unchanged(this`outputScaleFactor, this`outputOffset, this`numThreads)
      ensures r.Pass? ==> Working() == old(Working())
      ensures r.Fail? ==> unchanged(this)
    {
      r := CheckOutputSize(size);
      if r.Pass? {
        outputSize := size;
      }
    }

    /** `setOutputScaleFactor`: store the factor if it passes the check, else fail and change nothing. */
    method SetOutputScaleFactor(factor: Option<SizeDouble>) returns (r: Outcome)
      requires Valid()
      modifies this
      ensures Valid() && r == CheckScaleFactor(factor)
      ensures r.Pass? ==> outputScaleFactor == factor && unchanged(this`outputSize, this`outputOffset, this`numThreads)
      ensures r.Pass? ==> Working() == old(Working())
      ensures r.Fail? ==> unchanged(this)
    {
      r := CheckScaleFactor(factor);
      if r.Pass? {
        outputScaleFactor := factor;
      }
    }

    /** `setOffset`: store the offset if it passes the check, else fail and change nothing. */
    method SetOffset(offset: Option<PointDouble>) returns (r: Outcome)
      requires Valid()
      modifies this
      ensures Valid() && r == CheckOffset(offset)
      ensures r.Pass? ==> outputOffset == offset && unchanged(this`outputSize, this`outputScaleFactor, this`numThreads)
      ensures r.Pass? ==> Working() == old(Working())
      ensures r.Fail? ==> unchanged(this)
    {
      r := CheckOffset(offset);
      if r.Pass? {
        outputOffset := offset;
      }
    }

    /** `setNumThreads`: store the count if it is not negative, else fail and change nothing. */
    method SetNumThreads(n: int) returns (r: Outcome)
      requires Valid()
      modifies this
      ensures Valid() && r == CheckNumThreads(n)
      ensures r.Pass? ==> numThreads == n && unchanged(this`outputSize, this`outputScaleFactor, this`outputOffset)
      ensures r.Pass? ==> Working() == old(Working())
      ensures r.Fail? ==> unchanged(this)
    {
      r := CheckNumThreads(n);
      if r.Pass? {
        numThreads := n;
      }
    }

    /**
     * `calculateDstSizeAndScale(image)`: overwrite the working data with what
     * the settings give for an image of size `image`; the settings stay.
     */
    method CalculateDstSizeAndScale(image: SizeInt) returns (r: Outcome)
      requires Valid()
      modifies this
      ensures Valid()
      ensures unchanged(this`outputSize, this`outputScaleFactor, this`outputOffset, this`numThreads)
      ensures var plan := DstSizeAndScale(image, outputSize, outputScaleFactor, outputOffset);
        if plan.Failure? then r == Fail(plan.error) && unchanged(this)
        else r == Pass && Working() == plan.value
    {
      var plan := DstSizeAndScale(image, outputSize, outputScaleFactor, outputOffset);
      if plan.Failure? {
        r := Fail(plan.error);
      } else {
        SetWorking(plan.value);
        r := Pass;
      }
    }

    /** Overwrite the working data. */
    method SetWorking(p: Plan)
      modifies this
      ensures Working() == p
      ensures unchanged(this`outputSize, this`outputScaleFactor, this`outputOffset, this`numThreads)
    {
      srcWidth, srcHeight, dstWidth, dstHeight := p.srcWidth, p.srcHeight, p.dstWidth, p.dstHeight;
      widthScaleFactor, heightScaleFactor := p.widthScaleFactor, p.heightScaleFactor;
      offsetX, offsetY := p.offsetX, p.offsetY;
    }
  }

  /**
   * `resize(AnimationFrame...)`: a new array of the same length whose frame `i`
   * holds the resized image of frame `i` with its duration; `resizeImage`
   * stands for the single-image `resize` of the concrete resampler.
   */
  method ResizeAnimation(animation: seq<AnimationFrames.AnimationFrame>,
                         resizeImage: AnimationFrames.Image -> AnimationFrames.Image)
    returns (resized: array<AnimationFrames.AnimationFrame>)
    ensures fresh(resized) && resized.Length == |animation|
    ensures forall i :: 0 <= i < |animation| ==>
      resized[i] == AnimationFrames.AnimationFrame(resizeImage(animation[i].image), animation[i].duration)
    ensures (forall i :: 0 <= i < |animation| ==> animation[i].Valid()) ==>
      forall i :: 0 <= i < resized.Length ==> resized[i].Valid()
  {
    resized := new AnimationFrames.AnimationFrame[|animation|](
      i => AnimationFrames.AnimationFrame(AnimationFrames.Image(0, 0, 0), 1));
    var i := 0;
    while i < |animation|
      invariant 0 <= i <= |animation|
      invariant forall k :: 0 <= k < i ==>
        resized[k] == AnimationFrames.AnimationFrame(resizeImage(animation[k].image), animation[k].duration)
    {
      var image := resizeImage(animation[i].image);
      resized[i] := AnimationFrames.AnimationFrame(image, animation[i].duration);
      i := i + 1;
    }
  }
}
