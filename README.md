# ImageUtilities resampling core in Dafny

ImageUtilities is a Java image-resizing library. It separates the two axes: an image is resized horizontally, then vertically, or the other way round, whichever costs less. Each pass convolves the source with a resampling curve (Box, Linear, Hermite, Cubic, Lanczos3, Lanczos8, Test). It reads a precomputed table of source indices and weights per destination sample. Before resampling, the bytes of an image are converted to a 15-bit fixed-point "short" level in `[-16384, 16256]`. That conversion can linearise sRGB through lookup tables and premultiply colours by alpha, and the conversion after resampling undoes it. The work is cut into stripes of rows, and a dependency queue runs the stripes of each stage once the previous stage's stripes are done.

The modules below follow the library's classes:

- `Java`, `Wrappers` hold Java's integer semantics (`(byte)`, `(short)` and `(int)` casts, `>>`, truncating `/`, float-to-int casts) and the Option and Result types.
- `Curves` covers the resampling curves, `ResamplingCurve` and its implementations.
- `Sampling` and `SamplingProperties` cover `SamplingDataCalculator`, the index and weight tables in both layouts.
- `WorkerQueue` covers `DependentWorkerQueue`, a class whose `eligible` and `blocked` fields the methods update.
- `PixelCodec`, `SrgbTables`, `ConvertWorkers`, `ResampleWorkers` and `ResamplePipeline` cover `ImageResamplerShort`:
  - the per-sample codec;
  - the sRGB tables and their initialisation loops;
  - the pre- and post-conversion workers and the horizontal and vertical resampling workers, as methods over arrays;
  - the order chooser, the work buffer, the worker layers and the dependency queue built from them.
- `ResamplerShort2` covers the earlier revision `ImageResamplerShort2`.
- `ImageResizers` covers `AbstractImageResizer`, whose setters and size computation form a class.
- `ResizerUtilities` covers the target-size policies, `intDivRound` and `bestResamplingCurve`.
- `SizeInts`, `AnimationFrames`, `ImageUtility`, `ImageUtilsOld`, `ResampleOpOld` and `PerformanceTimers` cover the smaller and older classes of the same names.

Facts about the code worth knowing:

- `makeResampleQueue`'s neighbourhood is as wide as the number of stripes, so every worker waits for the whole previous layer (`ResamplePipeline.DependenciesAreWholeLayer`).
- The exact byte round trip holds for the plain codec, for every alpha sample and for opaque pixels. The sRGB round trips go through the lookup tables and are not claimed.
- `ImageResamplerShort` builds its sRGB tables by rounding (`Math.floor(x + 0.5)`); `ImageResamplerShort2` truncates. `ResamplerShort2.TruncatedEntriesAreAtMostOneBelow` bounds the difference.
- `ImageResamplerShort2` cuts its conversion stripes on samples (whole pixels), not on rows.
- `ResampleOpOld.setDstSize` stores the new size before it checks it, so a refused size is kept (`ResampleOpOld.ResampleOp.SetDstSize`).

## Model

| member | source | states |
|---|---|---|
| SizeInts.EqualsIsValueEquality | src/org/digitalmodular/imageutilities/util/SizeInt.java:28-37 | `equals` holds exactly when width and height agree; it is reflexive and symmetric and false for any non-`SizeInt` |
| SizeInts.HashCode | src/org/digitalmodular/imageutilities/util/SizeInt.java:39-47 | the hash of a size is a 32-bit Java int |
| SizeInts.MixStepIsInjective | src/org/digitalmodular/imageutilities/util/SizeInt.java:42-44 | `hash *= 0x01000193` with 32-bit wrap-around loses nothing: two ints with the same product are equal |
| SizeInts.EqualSizesHashAlike | src/org/digitalmodular/imageutilities/util/SizeInt.java:28-47 | sizes that are `equals` have the same `hashCode` |
| SizeInts.HashSeparatesOneDimension | src/org/digitalmodular/imageutilities/util/SizeInt.java:39-47 | two different sizes that share their width or their height never collide in `hashCode` |
| SizeInts.ToStringNamesTheSize | src/org/digitalmodular/imageutilities/util/SizeInt.java:49-52 | `toString` is `"(" + width + ", " + height + ")"`, and the two numbers read back out of it are the width and the height |
| AnimationFrames.NewFrame | src/org/digitalmodular/imageutilities/AnimationFrame.java:14-20 | the constructor succeeds exactly for a non-null image and a duration of at least 1, keeping both; a null image fails with `NullPointerException` first, a duration below 1 with `IllegalArgumentException` |
| AnimationFrames.GetSize | src/org/digitalmodular/imageutilities/AnimationFrame.java:26-28 | `getSize` is the image's width and height |
| AnimationFrames.EqualsIsValueEquality | src/org/digitalmodular/imageutilities/AnimationFrame.java:30-42 | `equals` holds exactly for the same image and duration; reflexive, symmetric, false for any non-frame |
| AnimationFrames.HashCode | src/org/digitalmodular/imageutilities/AnimationFrame.java:44-49 | the hash is a 32-bit Java int |
| AnimationFrames.EqualFramesHashAlike | src/org/digitalmodular/imageutilities/AnimationFrame.java:30-49 | frames that are `equals` hash alike, whatever the image's own hash is |
| AnimationFrames.HashSeparatesDurations | src/org/digitalmodular/imageutilities/AnimationFrame.java:44-49 | two valid frames of one image with different durations hash apart (`31 * h + d` is one-to-one in `d` on 32 bits for durations that are Java ints) |
| Curves.Radius | src/org/digitalmodular/imageutilities/resize/filter/ResamplingCurve.java:33-63 | every curve's radius is positive (the values are those of each `getRadius`: Box 0.5, Linear, Hermite and Test 1, Cubic 2, Lanczos3 3, Lanczos8 8) |
| Curves.NamesAreDistinct | src/org/digitalmodular/imageutilities/resize/filter/CubicResamplingCurve.java:58 | the `getName` strings ("Nearest Neighbor", "Triangle", "Hermite", "Cubic", "Test", "Lanczos3", "Lanczos8") tell the curves apart; only cubics of different sharpness share a name |
| Curves.Apply | src/org/digitalmodular/imageutilities/resize/filter/CubicResamplingCurve.java:63-76 | every curve weighs distance 0 with 1, and every curve but Box is 0 at and beyond its radius (Cubic at 2, Linear, Hermite and Test at 1, Lanczos3 at 3, Lanczos8 at 8), independently of `sin` |
| Curves.ApplyIsEven | src/org/digitalmodular/imageutilities/resize/filter/Lanczos3ResamplingCurve.java:48-65 | every curve but Box gives `-x` the weight of `x`, since each starts by replacing a negative argument with its negation |
| Curves.CubicIsEven | src/org/digitalmodular/imageutilities/resize/filter/CubicResamplingCurve.java:64-66 | the cubic of any sharpness is even |
| Curves.LanczosIsEven | src/org/digitalmodular/imageutilities/resize/filter/Lanczos8ResamplingCurve.java:50-53 | the Lanczos window with any number of lobes is even |
| Curves.BoxIsNotEven | src/org/digitalmodular/imageutilities/resize/filter/BoxResamplingCurve.java:50-56 | Box is 0 at 0.50001 but 1 at -0.50001, so unlike the others it is not symmetric |
| Curves.BoxNonzeroBeyondRadius | src/org/digitalmodular/imageutilities/resize/filter/BoxResamplingCurve.java:45-56 | Box is 1 beyond its radius 0.5 everywhere except at 0.50001 |
| Curves.ApplyVanishesAtNonzeroIntegers | src/org/digitalmodular/imageutilities/resize/filter/CubicResamplingCurve.java:30-33 | every curve but Box is 0 at every non-zero integer distance (the cubic's intercepts at -1 and +1, the Lanczos zeros given an idealised sine with `sin(n * PI) == 0`), so up to the sine's rounding none of them blurs or sharpens an unscaled image |
| Curves.LanczosAtInteger | src/org/digitalmodular/imageutilities/resize/filter/Lanczos3ResamplingCurve.java:53-64 | the Lanczos window vanishes at non-zero integers when `sin` does at multiples of pi |
| Curves.CubicIsContinuous | src/org/digitalmodular/imageutilities/resize/filter/CubicResamplingCurve.java:71-75 | both cubic pieces are 0 at distance 1 and the outer piece is 0 at 2, for every sharpness |
| Curves.LinearIsUnitAndDecreasing | src/org/digitalmodular/imageutilities/resize/filter/LinearResamplingCurve.java:30-58 | Triangle weights lie in [0, 1] and do not grow with the distance: no under- or overshoot |
| Curves.HermiteIsUnitAndDecreasing | src/org/digitalmodular/imageutilities/resize/filter/HermiteResamplingCurve.java:30-55 | Hermite weights lie in [0, 1] and do not grow with the distance: smooth without overshoot |
| Curves.HermitePolynomialFalls | src/org/digitalmodular/imageutilities/resize/filter/HermiteResamplingCurve.java:55 | the polynomial `(2v - 3)v^2 + 1` does not rise on [0, 1] |
| Curves.TestIsHermite | src/org/digitalmodular/imageutilities/resize/filter/TestResamplingCurve.java:47-57 | the Test curve equals the Hermite curve at every distance |
| Curves.ApplyIgnoresSinOutsideLanczos | src/org/digitalmodular/imageutilities/resize/filter/Lanczos3ResamplingCurve.java:63-65 | only the two Lanczos curves depend on `Math.sin` |
| Curves.BoxApply | src/org/digitalmodular/imageutilities/resize/filter/BoxResamplingCurve.java:50-56 | the box weight is 0 or 1, and 0 exactly at 0.50001 |
| Curves.LinearApply | src/org/digitalmodular/imageutilities/resize/filter/LinearResamplingCurve.java:50-58 | the triangle weight lies in [0, 1], is 0 exactly at distance 1 or more, and 1 at the centre |
| Curves.HermiteApply | src/org/digitalmodular/imageutilities/resize/filter/HermiteResamplingCurve.java:48-55 | the Hermite weight lies in [0, 1], is 0 at distance 1 or more, and 1 at the centre |
| Curves.CubicApply | src/org/digitalmodular/imageutilities/resize/filter/CubicResamplingCurve.java:63-76 | the cubic weight is 1 at the centre and 0 at distance 1 and at distance 2 or more |
| Curves.Sinc | src/org/digitalmodular/imageutilities/resize/filter/Lanczos3ResamplingCurve.java:63-65 | sinc is 1 at 0 and elsewhere `sin(v) / v` (its product with `v` is `sin(v)`) |
| Curves.LanczosApply | src/org/digitalmodular/imageutilities/resize/filter/Lanczos3ResamplingCurve.java:49-61 | the Lanczos weight is 1 at the centre and 0 at the lobe count or beyond (also Lanczos8ResamplingCurve.java:50-62) |
| Curves.Name | src/org/digitalmodular/imageutilities/resize/filter/BoxResamplingCurve.java:40-42 | the names "Cubic", "Nearest Neighbor" and "Triangle" belong exactly to the cubic, box and linear curves (also CubicResamplingCurve.java:58, LinearResamplingCurve.java:40-42) |
| ResizerUtilities.IntDivRound | src/org/digitalmodular/imageutilities/resize/ResizerUtilities.java:134-136 | the result is a Java int, and a zero denominator gives 0 instead of an `ArithmeticException` |
| ResizerUtilities.IntDivRoundRoundsHalfUp | src/org/digitalmodular/imageutilities/resize/ResizerUtilities.java:130-136 | for a non-negative numerator and a positive denominator that do not overflow, `intDivRound` is `Math.round(n / d)`: `r - 1/2 <= n/d < r + 1/2` |
| ResizerUtilities.ExactQuotientIsKept | src/org/digitalmodular/imageutilities/resize/ResizerUtilities.java:134-136 | rounding an exact quotient `a * d / d` gives back `a` |
| ResizerUtilities.MatchWidthIsProportional | src/org/digitalmodular/imageutilities/resize/ResizerUtilities.java:74-77 | the target's width with the image's height scaled by `target.width / image.width`, rounded half up |
| ResizerUtilities.MatchHeightIsProportional | src/org/digitalmodular/imageutilities/resize/ResizerUtilities.java:78-81 | the target's height with the image's width scaled by `target.height / image.height`, rounded half up |
| ResizerUtilities.MatchWidthFitsWithin | src/org/digitalmodular/imageutilities/resize/ResizerUtilities.java:57-59 | when the width is the tighter side, the proportional height stays within the target |
| ResizerUtilities.MatchHeightFitsWithin | src/org/digitalmodular/imageutilities/resize/ResizerUtilities.java:60-63 | when the height is the tighter side, the proportional width stays within the target |
| ResizerUtilities.MatchWidthCovers | src/org/digitalmodular/imageutilities/resize/ResizerUtilities.java:66-68 | when the width is the looser side, the proportional height covers the target |
| ResizerUtilities.MatchHeightCovers | src/org/digitalmodular/imageutilities/resize/ResizerUtilities.java:69-72 | when the height is the looser side, the proportional width covers the target |
| ResizerUtilities.InsideFitsWithin | src/org/digitalmodular/imageutilities/resize/ResizerUtilities.java:56-64 | INSIDE, for positive sizes without overflow: one dimension is the target's, the other is in proportion and at most the target's |
| ResizerUtilities.OutsideCoversTarget | src/org/digitalmodular/imageutilities/resize/ResizerUtilities.java:65-73 | OUTSIDE, for positive sizes without overflow: one dimension is the target's, the other is in proportion and at least the target's |
| ResizerUtilities.TouchPoliciesMatchOneDimension | src/org/digitalmodular/imageutilities/resize/ResizerUtilities.java:52-81 | STRETCH returns the image's own size; WIDTH_TOUCH takes the target width and HEIGHT_TOUCH the target height, the other side in proportion |
| ResizerUtilities.SameCircumferenceKeepsOwnSize | src/org/digitalmodular/imageutilities/resize/ResizerUtilities.java:88-93 | SAME_CIRCUMFERENCE, asked for a target equal to the image, returns the image's size |
| ResizerUtilities.SameAreaKeepsOwnSize | src/org/digitalmodular/imageutilities/resize/ResizerUtilities.java:94-99 | SAME_AREA, asked for a target equal to the image, returns the image's size, under both the corrected rule and the source's rule |
| ResizerUtilities.SameCircumference | src/org/digitalmodular/imageutilities/resize/ResizerUtilities.java:88-93 | without overflow each side is the image's side times `vSum / iSum`, rounded half up, so the half circumference `width + height` of the result is the target's or one more |
| ResizerUtilities.SameAreaAsWritten | src/org/digitalmodular/imageutilities/resize/ResizerUtilities.java:94-99 | as in the source: without overflow each side is the image's side times `vArea / iArea` itself, rounded half up (see Findings) |
| ResizerUtilities.SameArea | src/org/digitalmodular/imageutilities/resize/ResizerUtilities.java:94-99 | corrected: for a positive image size each side is the image's side times the square root of `vArea / iArea`, rounded half up |
| ResizerUtilities.SameAreaKeepsTargetArea | src/org/digitalmodular/imageutilities/resize/ResizerUtilities.java:94-99 | the corrected SAME_AREA keeps the target's area up to rounding: `(w' - 1/2)(h' - 1/2) <= vArea < (w' + 1/2)(h' + 1/2)` |
| ResizerUtilities.SameAreaAsWrittenMissesArea | src/org/digitalmodular/imageutilities/resize/ResizerUtilities.java:94-99 | a 10 x 10 image against a 20 x 20 target: the source's rule gives 40 x 40, four times the target's area, where the corrected rule, used by `TargetSize`, gives 20 x 20 |
| ResizerUtilities.ConditionsKeepImageSize | src/org/digitalmodular/imageutilities/resize/ResizerUtilities.java:104-127 | ALWAYS takes the policy's size; NEVER keeps the image size; ONLY_IF_LARGER falls back to the image size when the result is at least the image in both dimensions, ONLY_IF_SMALLER when it is at most the image in both, so what they return is the image or a size smaller (resp. larger) in some dimension |
| ResizerUtilities.OverloadDefaults | src/org/digitalmodular/imageutilities/resize/ResizerUtilities.java:34-40 | the two shorter overloads are INSIDE with ALWAYS, and the given target with ALWAYS |
| ResizerUtilities.BestCurveIsSymmetric | src/org/digitalmodular/imageutilities/resize/ResizerUtilities.java:148-160 | swapping the two sizes picks the same curve, even when a size is zero (infinities and NaN compare the same way both ways) |
| ResizerUtilities.BestCurveFollowsDeviation | src/org/digitalmodular/imageutilities/resize/ResizerUtilities.java:138-160 | for positive sizes the factor is the largest deviation from 1:1 on either axis (at least 1), and the curve is Lanczos3 from 4, the Catmull-Rom cubic from 2, otherwise Triangle |
| ResizerUtilities.ReciprocalOfRatio | src/org/digitalmodular/imageutilities/resize/ResizerUtilities.java:149-152 | the inverse ratios of the factor are reciprocals, and one of them is at least 1 |
| ResizerUtilities.MaxOfFinites | src/org/digitalmodular/imageutilities/resize/ResizerUtilities.java:149 | `Math.max` of two finite doubles is the larger one |
| ResizerUtilities.TargetSize | src/org/digitalmodular/imageutilities/resize/ResizerUtilities.java:51-101 | STRETCH keeps the image size, WIDTH_TOUCH takes the target width, HEIGHT_TOUCH the target height, INSIDE and OUTSIDE match the target in at least one dimension, SAME_DIAGONAL is the diagonal-preserving size; without overflow SAME_CIRCUMFERENCE keeps the target's half circumference `width + height` or one more, and SAME_AREA (corrected, see Findings) keeps the target's area up to rounding, `(w' - 1/2)(h' - 1/2) <= vArea < (w' + 1/2)(h' + 1/2)` |
| ResizerUtilities.ApplyCondition | src/org/digitalmodular/imageutilities/resize/ResizerUtilities.java:104-125 | the result is either the image size or the computed size: ALWAYS the computed one, NEVER the image's; ONLY_IF_LARGER keeps the computed size exactly when it is smaller in some dimension, ONLY_IF_SMALLER exactly when it is larger in some dimension |
| ResizerUtilities.GetScalingSize | src/org/digitalmodular/imageutilities/resize/ResizerUtilities.java:42-128 | the result is the image size or the policy's target size; ALWAYS gives the target size and NEVER the image size |
| ResizerUtilities.GetScalingSizeInside | src/org/digitalmodular/imageutilities/resize/ResizerUtilities.java:34-36 | the two-argument overload matches the target's width or its height |
| ResizerUtilities.GetScalingSizeAlways | src/org/digitalmodular/imageutilities/resize/ResizerUtilities.java:38-40 | the three-argument overload keeps the image for STRETCH, takes the target width for WIDTH_TOUCH and height for HEIGHT_TOUCH, and matches one target dimension for INSIDE and OUTSIDE |
| ResizerUtilities.BestResamplingCurve | src/org/digitalmodular/imageutilities/resize/ResizerUtilities.java:148-160 | the curve is Lanczos3, Cubic or Triangle, and an unchanged non-empty size gets Triangle |
| ImageResizers.CheckOutputSize | src/org/digitalmodular/imageutilities/resize/AbstractImageResizer.java:85-95 | an output size passes exactly when it is absent (null) or both dimensions are positive; a zero dimension is reported as "Dimension" before a negative one |
| ImageResizers.CheckScaleFactor | src/org/digitalmodular/imageutilities/resize/AbstractImageResizer.java:101-112 | a scale factor passes exactly when it is absent or both components are finite and positive; a NaN or infinite component is reported as degenerate first |
| ImageResizers.CheckOffset | src/org/digitalmodular/imageutilities/resize/AbstractImageResizer.java:118-127 | an offset passes exactly when it is absent or both components are finite; negative offsets are allowed |
| ImageResizers.CheckNumThreads | src/org/digitalmodular/imageutilities/resize/AbstractImageResampler.java:88-92 | a thread count passes exactly when it is not negative |
| ImageResizers.CeilToInt | src/org/digitalmodular/imageutilities/resize/AbstractImageResizer.java:183-184 | `(int)Math.ceil(x)` is the ceiling when that is an int, and saturates at `Integer.MAX_VALUE` above |
| ImageResizers.DstSizeAndScale | src/org/digitalmodular/imageutilities/resize/AbstractImageResizer.java:170-202 | the working data cannot be computed exactly when neither an output size nor a scale factor is set (`IllegalStateException`) |
| ImageResizers.DstSizeIsPositive | src/org/digitalmodular/imageutilities/resize/AbstractImageResizer.java:179-185 | under validated settings the destination is at least 1 by 1, and it is the explicit output size when one is set |
| ImageResizers.ScaledSizeRoundsUp | src/org/digitalmodular/imageutilities/resize/AbstractImageResizer.java:182-185 | a destination computed from a factor is the scaled source rounded up: `dst - 1 < src * scale <= dst` |
| ImageResizers.DerivedScaleMapsSourceOntoDestination | src/org/digitalmodular/imageutilities/resize/AbstractImageResizer.java:187-193 | without a factor the scale is `dst / src`, so the source scaled by it is exactly the destination on each axis |
| ImageResizers.ExplicitFactorAndDefaultOffset | src/org/digitalmodular/imageutilities/resize/AbstractImageResizer.java:187-201 | an explicit factor is used as given; without an offset each axis gets 0 for an even destination size and 0.5 for an odd one |
| ImageResizers.DefaultOffsetCentresOddSizes | src/org/digitalmodular/imageutilities/resize/AbstractImageResizer.java:198-201 | the default offset is finite and equals half of `size & 1` |
| ImageResizers.ImageResizer.constructor | src/org/digitalmodular/imageutilities/resize/AbstractImageResizer.java:65-73 | a new resizer has no size, factor or offset, zero threads and zeroed working data, and its settings are valid |
| ImageResizers.ImageResizer.SetOutputSize | src/org/digitalmodular/imageutilities/resize/AbstractImageResizer.java:84-95 | stores the size exactly when `CheckOutputSize` passes; otherwise fails and changes nothing; other settings and working data are untouched |
| ImageResizers.ImageResizer.SetOutputScaleFactor | src/org/digitalmodular/imageutilities/resize/AbstractImageResizer.java:100-112 | stores the factor exactly when `CheckScaleFactor` passes; otherwise fails and changes nothing |
| ImageResizers.ImageResizer.SetOffset | src/org/digitalmodular/imageutilities/resize/AbstractImageResizer.java:117-127 | stores the offset exactly when `CheckOffset` passes; otherwise fails and changes nothing |
| ImageResizers.ImageResizer.SetNumThreads | src/org/digitalmodular/imageutilities/resize/AbstractImageResampler.java:88-92 | stores a non-negative count; a negative one fails and changes nothing |
| ImageResizers.ImageResizer.CalculateDstSizeAndScale | src/org/digitalmodular/imageutilities/resize/AbstractImageResizer.java:170-202 | with neither size nor factor set it fails and changes nothing; otherwise the working fields become `DstSizeAndScale` of the image and the settings stay |
| ImageResizers.ImageResizer.SetWorking | src/org/digitalmodular/imageutilities/resize/AbstractImageResizer.java:176-201 | the working fields hold the given plan and the settings are unchanged |
| ImageResizers.ResizeAnimation | src/org/digitalmodular/imageutilities/resize/AbstractImageResizer.java:241-257 | a new array as long as the animation whose frame `i` is the resized image of frame `i` with frame `i`'s duration; valid frames stay valid |
| WorkerQueue.IndexOf | src/org/digitalmodular/imageutilities/internal/DependentWorkerQueue.java:113 | the first position holding `d`: it holds `d` and no earlier one does |
| WorkerQueue.RemoveFirst | src/org/digitalmodular/imageutilities/internal/DependentWorkerQueue.java:113 | `List.remove(Object)` shortens a list holding `d` by one and leaves a list without `d` unchanged |
| WorkerQueue.RemoveFirstSplits | src/org/digitalmodular/imageutilities/internal/DependentWorkerQueue.java:113 | what `remove` drops is the first occurrence of `d`: the list closes up around that position |
| WorkerQueue.RemoveFirstTakesOneCopy | src/org/digitalmodular/imageutilities/internal/DependentWorkerQueue.java:113 | `remove` takes exactly one copy of `d` out of the list's contents |
| WorkerQueue.DependentWorkerQueue.constructor | src/org/digitalmodular/imageutilities/internal/DependentWorkerQueue.java:56-57 | a new queue has no blocked and no eligible workers |
| WorkerQueue.DependentWorkerQueue.IsEmpty | src/org/digitalmodular/imageutilities/internal/DependentWorkerQueue.java:96-98 | `isEmpty` holds exactly when `size()` (blocked lists plus eligible workers) is 0 |
| WorkerQueue.DependentWorkerQueue.HasEligibleWorkers | src/org/digitalmodular/imageutilities/internal/DependentWorkerQueue.java:84-86 | true exactly when some worker is eligible |
| WorkerQueue.DependentWorkerQueue.Clear | src/org/digitalmodular/imageutilities/internal/DependentWorkerQueue.java:59-62 | both collections are emptied |
| WorkerQueue.DependentWorkerQueue.AddWorker | src/org/digitalmodular/imageutilities/internal/DependentWorkerQueue.java:64-69 | the worker joins the tail of the eligible queue, the blocked lists are unchanged, and the size grows by one |
| WorkerQueue.DependentWorkerQueue.AddWorkerAfter | src/org/digitalmodular/imageutilities/internal/DependentWorkerQueue.java:71-82 | `[worker] + dependencies` is appended to the blocked lists (even with no dependencies, so it waits for a release), the eligible queue is unchanged, the size grows by one |
| WorkerQueue.DependentWorkerQueue.TakeEligibleWorker | src/org/digitalmodular/imageutilities/internal/DependentWorkerQueue.java:88-90 | returns and removes the head of the eligible queue; the size drops by one; the wait for a worker is the precondition that one is eligible |
| WorkerQueue.DependentWorkerQueue.ReleaseBlockedWorkers | src/org/digitalmodular/imageutilities/internal/DependentWorkerQueue.java:100-121 | the blocked lists and the eligible queue become what one front-to-back pass of `Release` gives (one occurrence of the dependency removed per list, lists left with their worker alone promoted in order to the eligible tail), and `size()` is unchanged |
| WorkerQueue.DependentWorkerQueue.Complete | src/org/digitalmodular/imageutilities/internal/DependentWorkerQueue.java:130-135 | completing a worker releases it as a dependency of every blocked list |
| WorkerQueue.ReleaseKeepsCount | src/org/digitalmodular/imageutilities/internal/DependentWorkerQueue.java:106-121 | each blocked list is either kept or promoted: no worker is lost or duplicated |
| WorkerQueue.KeptListsStillWait | src/org/digitalmodular/imageutilities/internal/DependentWorkerQueue.java:115-119 | after a release no kept list holds only its worker |
| WorkerQueue.ReleaseOfUnrelatedWorker | src/org/digitalmodular/imageutilities/internal/DependentWorkerQueue.java:106-121 | releasing a worker that no list mentions, when no list is already complete, changes nothing |
| WorkerQueue.PromotedExactlyOnLastDependency | src/org/digitalmodular/imageutilities/internal/DependentWorkerQueue.java:113-118 | a list `[w] + deps` is promoted by releasing `d` exactly when `d` was its only dependency or it had none |
| WorkerQueue.ReleaseEachRemoves | src/org/digitalmodular/imageutilities/internal/DependentWorkerQueue.java:101-102 | releasing several dependencies one after another removes exactly those from the list, in any order |
| WorkerQueue.AllDependenciesReleasedLeavesWorker | src/org/digitalmodular/imageutilities/internal/DependentWorkerQueue.java:71-102 | once every dependency of a worker has been released, in any order, its list holds only the worker, ready to be promoted |
| WorkerQueue.Release | src/org/digitalmodular/imageutilities/internal/DependentWorkerQueue.java:106-121 | every blocked worker's list ends up either kept (still waiting) or promoted, none lost and none added |
| WorkerQueue.ReleaseEach | src/org/digitalmodular/imageutilities/internal/DependentWorkerQueue.java:101-102 | releasing a list of finished workers removes at most one entry per finished worker and never adds one |
| PerformanceTimers.Steps | src/org/digitalmodular/imageutilities/internal/PerformanceTimer.java:68-74 | one duration per reading after the first |
| PerformanceTimers.Longest | src/org/digitalmodular/imageutilities/internal/PerformanceTimer.java:72 | the longest description length: at least every recorded length, and equal to one of them (0 when none) |
| PerformanceTimers.StepsTelescope | src/org/digitalmodular/imageutilities/internal/PerformanceTimer.java:62-108 | the durations between consecutive readings add up to the last reading minus the first, which is what `printTotal` prints |
| PerformanceTimers.StepsAreDifferences | src/org/digitalmodular/imageutilities/internal/PerformanceTimer.java:69-73 | duration `k` is reading `k + 1` minus reading `k` |
| PerformanceTimers.StepsAppend | src/org/digitalmodular/imageutilities/internal/PerformanceTimer.java:69-73 | a new reading appends one duration, the time since the previous reading |
| PerformanceTimers.LongestAppend | src/org/digitalmodular/imageutilities/internal/PerformanceTimer.java:72 | recording a description raises the longest length to its length when that is larger (`Math.max`) |
| PerformanceTimers.Timer.constructor | src/org/digitalmodular/imageutilities/internal/PerformanceTimer.java:40-47 | empty lists and zero times and length; the invariant holds |
| PerformanceTimers.Timer.Reset | src/org/digitalmodular/imageutilities/internal/PerformanceTimer.java:57-60 | both lists are cleared; start time, last time and the longest length are unchanged |
| PerformanceTimers.Timer.Start | src/org/digitalmodular/imageutilities/internal/PerformanceTimer.java:62-66 | start and last time become `now`, the longest length 0; the lists are kept |
| PerformanceTimers.Timer.Record | src/org/digitalmodular/imageutilities/internal/PerformanceTimer.java:68-74 | appends `now - lastTime` and the description to the two lists (which stay equally long), raises the longest length, sets the last time to `now`; after reset and start the durations add up to `lastTime - startTime` |
| PerformanceTimers.Timer.PrintResults | src/org/digitalmodular/imageutilities/internal/PerformanceTimer.java:76-86 | nothing while printing is disabled; otherwise one line per entry padded to the longest description, and a `MissingFormatWidthException` exactly when there is an entry and the longest length is 0 |
| PerformanceTimers.Timer.PrintResultsWithWorkload | src/org/digitalmodular/imageutilities/internal/PerformanceTimer.java:88-101 | as `printResults`, each line also carrying the workload |
| PerformanceTimers.Timer.PrintTotal | src/org/digitalmodular/imageutilities/internal/PerformanceTimer.java:103-111 | nothing while printing is disabled; otherwise one "Total" line with `lastTime - startTime`, or `MissingFormatWidthException` exactly when the longest length is 0 |
| PerformanceTimers.Timer.PrintTotalWithWorkload | src/org/digitalmodular/imageutilities/internal/PerformanceTimer.java:113-126 | nothing while disabled; otherwise the same "Total" line once per recorded entry (none without entries), failing like `printResults` |
| PerformanceTimers.Timer.PrintTotalCorrected | src/org/digitalmodular/imageutilities/util/PerformanceTimer.java:98-119 | nothing while disabled; otherwise exactly one "Total" line with the elapsed time and the workload, padded to the longest description or to the width of "Total", whichever is larger |
| PerformanceTimers.TotalRightAfterStartFails | src/org/digitalmodular/imageutilities/internal/PerformanceTimer.java:62-111 | `printTotal` right after `start()` always throws |
| PerformanceTimers.TotalWithWorkloadRepeats | src/org/digitalmodular/imageutilities/internal/PerformanceTimer.java:113-126 | with two entries recorded, `printTotal(long)` prints the same "Total" line twice |
| PerformanceTimers.TimedSteps | src/org/digitalmodular/imageutilities/util/PerformanceTimer.java:55-105 | after `reset` and `start`, recording at the given times yields one duration per record, adding up to the time from the start to the last record |
| ImageUtility.NamedIsNotNumeral | src/org/digitalmodular/imageutilities/ImageUtilities.java:100-101 | a constant's name, which starts with a capital letter, is never the decimal form of a code |
| ImageUtility.DataTypeNameReadsBack | src/org/digitalmodular/imageutilities/ImageUtilities.java:84-103 | a known data-buffer type is named "TYPE_..."; an unknown code is named by its decimal form, which reads back as the code |
| ImageUtility.KnownDataTypeNamesDiffer | src/org/digitalmodular/imageutilities/ImageUtilities.java:85-99 | the seven data-buffer type names differ in length or in their sixth character |
| ImageUtility.DataTypeNamesAreDistinct | src/org/digitalmodular/imageutilities/ImageUtilities.java:84-103 | `dataTypeName` is one-to-one: distinct codes, known or not, get distinct names |
| ImageUtility.ColorSpaceNameReadsBack | src/org/digitalmodular/imageutilities/ImageUtilities.java:105-120 | a known colour space is named "CS_..."; an unknown code reads back from its name |
| ImageUtility.KnownColorSpaceNamesDiffer | src/org/digitalmodular/imageutilities/ImageUtilities.java:106-116 | the five colour-space names differ in their fourth character |
| ImageUtility.ColorSpaceNamesAreDistinct | src/org/digitalmodular/imageutilities/ImageUtilities.java:105-120 | `colorSpaceName` is one-to-one |
| ImageUtility.ImageTypeNameReadsBack | src/org/digitalmodular/imageutilities/ImageUtilities.java:122-155 | a known image type (0 to 13) is named "TYPE_..."; an unknown code reads back from its name |
| ImageUtility.KnownImageTypeNamesDiffer | src/org/digitalmodular/imageutilities/ImageUtilities.java:123-151 | the fourteen image-type names differ in length or in one of three characters |
| ImageUtility.ImageTypeNamesAreDistinct | src/org/digitalmodular/imageutilities/ImageUtilities.java:122-155 | `imageTypeName` is one-to-one |
| ImageUtility.GetBufferedImageType | src/org/digitalmodular/imageutilities/ImageUtilities.java:194-201 | succeeds exactly for three components, or one without alpha; the type is TYPE_4BYTE_ABGR with alpha and TYPE_3BYTE_BGR without for three, TYPE_BYTE_GRAY for one; anything else is an `UnsupportedOperationException` |
| ImageUtility.Reversal | src/org/digitalmodular/imageutilities/ImageUtilities.java:183-186 | entry `i` of the offsets of an `n`-channel pixel is `n - 1 - i` |
| ImageUtility.Range | src/org/digitalmodular/imageutilities/ImageUtilities.java:183-186 | the channel indices `0 .. n - 1` |
| ImageUtility.ReversalIsPermutation | src/org/digitalmodular/imageutilities/ImageUtilities.java:183-186 | the channel offsets are a permutation of the channel indices |
| ImageUtility.ReversalIsInvolution | src/org/digitalmodular/imageutilities/ImageUtilities.java:183-186 | the offsets are within the pixel and are their own inverse |
| ImageUtility.ChannelOffsets | src/org/digitalmodular/imageutilities/ImageUtilities.java:183-186 | the loop fills a new array of `pixelStride` entries with the reversal; a negative stride is a `NegativeArraySizeException` |
| ImageUtility.ToUpper | src/org/digitalmodular/imageutilities/ImageUtilities.java:56 | upper-cases each ASCII letter and leaves every other character, so the length is kept (Java's `toUpperCase` is locale-aware and maps all of Unicode; see Left out) |
| ImageUtility.GifNamesEndInGif | src/org/digitalmodular/imageutilities/ImageUtilities.java:54-57 | under the ASCII upper-casing, a file goes to the GIF loader exactly when its name has at least five characters and ends in ".gif" in any mix of cases (see Left out for non-ASCII names and locales) |
| ImageUtility.ReadSingleImage | src/org/digitalmodular/imageutilities/ImageUtilities.java:58-61 | a file `ImageIO` cannot read gives null; otherwise one valid frame of the decoded image with duration 1 |
| ImageUtility.PackedHeight | src/org/digitalmodular/imageutilities/ImageUtilities.java:220-221 | the height fails (division by zero) exactly for a zero width |
| ImageUtility.PackedHeightCountsWholeRows | src/org/digitalmodular/imageutilities/ImageUtilities.java:220-229 | for a positive width the height is the number of whole rows in the data: `height * width <= length < (height + 1) * width` |
| ImageUtility.DataTypeName | src/org/digitalmodular/imageutilities/ImageUtilities.java:84-103 | a non-empty name that starts with an upper-case letter exactly for the known data types (unknown codes print as a number) |
| ImageUtility.ColorSpaceName | src/org/digitalmodular/imageutilities/ImageUtilities.java:105-120 | a non-empty name that starts with an upper-case letter exactly for the known colour-space types |
| ImageUtility.ImageTypeName | src/org/digitalmodular/imageutilities/ImageUtilities.java:122-155 | a non-empty name that starts with an upper-case letter exactly for the known image types |
| ImageUtility.IsGifName | src/org/digitalmodular/imageutilities/ImageUtilities.java:56 | a name taken for a GIF has at least five characters, the fourth from the end a dot (ASCII model of the case-insensitive test; see Left out) |
| ImageUtility.ReadImageRoute | src/org/digitalmodular/imageutilities/ImageUtilities.java:54-57 | a file goes to the GIF loader exactly when its name has at least five characters and ends in `.gif` in any mix of ASCII case; every other name goes to ImageIO (see Left out for non-ASCII names) |
| ImageUtilsOld.LowBytesMakeLow24Bits | src/old/ImageUtilsOld.java:144-148 | the three bytes `ints2bytes` extracts (`(byte)v`, then `v >> 8`) put back together are the word's low 24 bits |
| ImageUtilsOld.FourBytesMakeTheInt | src/old/ImageUtilsOld.java:156-162 | the four extracted bytes, put back with the top one wrapping into the sign, are the Java int itself |
| ImageUtilsOld.Slot3 | src/old/ImageUtilsOld.java:140-150 | the three bytes of one word: byte 0 at `index1`, byte 1 at `index2`, byte 2 at `index3` |
| ImageUtilsOld.Slot4 | src/old/ImageUtilsOld.java:152-164 | the four bytes of one word, from low to high at `index1` to `index4` |
| ImageUtilsOld.Unpack3 | src/old/ImageUtilsOld.java:140-150 | three bytes per word |
| ImageUtilsOld.Unpack4 | src/old/ImageUtilsOld.java:152-164 | four bytes per word |
| ImageUtilsOld.Unpack3Slots | src/old/ImageUtilsOld.java:141-143 | word `i`'s bytes occupy positions `3i .. 3i + 2` |
| ImageUtilsOld.Unpack4Slots | src/old/ImageUtilsOld.java:153-155 | word `i`'s bytes occupy positions `4i .. 4i + 3` |
| ImageUtilsOld.Word3 | src/old/ImageUtilsOld.java:170-173 | `in[i1] << 16 \| in[i2] << 8 \| in[i3]` of unsigned bytes lies in `[0, 2^24)` |
| ImageUtilsOld.Word4 | src/old/ImageUtilsOld.java:182-186 | the four-byte word is a Java int (the top byte's shift wraps into the sign) |
| ImageUtilsOld.Pack3 | src/old/ImageUtilsOld.java:166-176 | `bytes2int` (3 bytes) returns `in.length / 3` words, each in `[0, 2^24)` |
| ImageUtilsOld.Pack4 | src/old/ImageUtilsOld.java:178-189 | `bytes2int` (4 bytes) returns `in.length / 4` Java ints |
| ImageUtilsOld.RoundTrip3 | src/old/ImageUtilsOld.java:140-176 | spreading words into three-byte slots in any channel order and gathering them in the reverse order gives back each word's low 24 bits |
| ImageUtilsOld.SlotRoundTrip3 | src/old/ImageUtilsOld.java:140-176 | one word spread into a three-byte slot and gathered back in the reverse order is its low 24 bits |
| ImageUtilsOld.RoundTrip4 | src/old/ImageUtilsOld.java:152-189 | spreading Java ints into four-byte slots and gathering in the reverse order gives back every int exactly |
| ImageUtilsOld.SlotRoundTrip4 | src/old/ImageUtilsOld.java:152-189 | one word spread and gathered back in the reverse order is the word |
| ImageUtilsOld.ImageOrdersRoundTrip | src/old/ImageUtilsOld.java:66-121 | the orders the image code pairs up round-trip: INT_BGR (0, 1, 2) with (2, 1, 0) and INT_RGB (2, 1, 0) with (0, 1, 2) keep the low 24 bits, INT_ARGB (2, 1, 0, 3) with (3, 0, 1, 2) keeps the whole int |
| ImageUtilsOld.SameCells3 | src/old/ImageUtilsOld.java:144-148 | two three-byte slots that agree at the three positions of a channel order are equal |
| ImageUtilsOld.SameCells4 | src/old/ImageUtilsOld.java:156-162 | two four-byte slots that agree at the four positions of a channel order are equal |
| ImageUtilsOld.WriteSlot3 | src/old/ImageUtilsOld.java:142-148 | the three writes for one word fill its slot with `Slot3` and leave every other byte alone |
| ImageUtilsOld.WriteSlot4 | src/old/ImageUtilsOld.java:154-162 | the four writes for one word fill its slot with `Slot4` and leave every other byte alone |
| ImageUtilsOld.PutSlot3 | src/old/ImageUtilsOld.java:142-148 | after writing word `i`, its slot holds what the whole unpacking has there; the rest is unchanged |
| ImageUtilsOld.PutSlot4 | src/old/ImageUtilsOld.java:154-162 | as `PutSlot3` for four-byte slots |
| ImageUtilsOld.Ints2Bytes3 | src/old/ImageUtilsOld.java:140-150 | the first `3 * in.length` bytes of `out` become `Unpack3` of the words; the rest of `out` is unchanged |
| ImageUtilsOld.Ints2Bytes4 | src/old/ImageUtilsOld.java:152-164 | the first `4 * in.length` bytes of `out` become `Unpack4` of the words; the rest is unchanged |
| ImageUtilsOld.Bytes2Int3 | src/old/ImageUtilsOld.java:166-176 | a new array holding `Pack3` of the bytes |
| ImageUtilsOld.Bytes2Int4 | src/old/ImageUtilsOld.java:178-189 | a new array holding `Pack4` of the bytes |
| ImageUtilsOld.SetBGRPixels | src/old/ImageUtilsOld.java:105-138 | byte images take the bytes as they are; for the others the bytes are packed in the order of the image type, an empty region (`w == 0` or `h == 0`) writes nothing, and fewer packed words than the int product `w * h` is an `IllegalArgumentException` |
| ImageUtilsOld.PackedFor | src/old/ImageUtilsOld.java:114-121 | `setBGRPixels` packs four bytes per int for the ARGB types and three for every other int type |
| ResampleOpOld.CheckDstSize | src/old/ResampleOpOld.java:88-94 | a destination size passes exactly when both sides are at least 1; otherwise IllegalArgumentException |
| ResampleOpOld.CheckFilterSize | src/old/ResampleOpOld.java:106-109 | `filter` accepts a destination exactly when both sides are at least 3; otherwise RuntimeException |
| ResampleOpOld.StartFilter | src/old/ResampleOpOld.java:104-145 | `filter` passes its two checks exactly when the size is at least 3x3 and there is at least one thread; the size error comes first, and zero or fewer threads make the helper-thread array's size negative (NegativeArraySizeException); `createSubSampling`, run between the two checks (lines 131-132), can still throw, e.g. Box enlarging 2 to 4 |
| ResampleOpOld.FilterIsStricterThanSetDstSize | src/old/ResampleOpOld.java:88-109 | every size `filter` accepts is accepted by `setDstSize`, and the sizes accepted by `setDstSize` but refused by `filter` are exactly those with a side of 1 or 2 |
| ResampleOpOld.ResampleOp.constructor | src/old/ResampleOpOld.java:31-74 | a fresh resampler has no destination size, one thread per available processor and the Lanczos3 curve |
| ResampleOpOld.ResampleOp.SetDstSize | src/old/ResampleOpOld.java:88-94 | the size is stored even when it is then refused; the outcome is CheckDstSize's, and the other settings are unchanged |
| ResampleOpOld.ResampleOp.SetNumberOfThreads | src/old/ResampleOpOld.java:100-102 | stores any thread count unchecked and changes nothing else |
| ResampleOpOld.ResampleOp.SetFilter | src/old/ResampleOpOld.java:80-82 | stores the curve and changes nothing else |
| ResampleOpOld.ResampleOp.Start | src/old/ResampleOpOld.java:104-145 | the checks `filter` makes on the stored settings; passing them implies a size `setDstSize` accepts |
| ResampleOpOld.MirrorReflectsAtEdges | src/old/ResampleOpOld.java:214-269 | a position inside the source is read as is, a negative one is reflected at 0 (`-j`), one at or past the end is reflected so that position `srcSize` reads the last pixel again (`2*srcSize-1-j`); the reflected position is inside the source exactly when `-srcSize < j < 2*srcSize` |
| ResampleOpOld.MakeGeometry | src/old/ResampleOpOld.java:184-248 | the scale is positive and `scale * srcSize == dstSize`; the geometry reduces exactly when `dstSize < srcSize`; the half-width is never below the curve's radius, and when enlarging it is the radius with norm factor 1; the norm factor lies in (0, 1] |
| ResampleOpOld.GeometryWindow | src/old/ResampleOpOld.java:190-200 | when reducing, the half-width is the radius divided by the scale and the norm factor is the radius divided by the half-width's ceiling; in both cases the centre offset is `0.5 / scale` |
| ResampleOpOld.TapsCountNonzeroWeights | src/old/ResampleOpOld.java:207-271 | a window position adds a cell only when its weight is nonzero: a row has at most one cell per position, none when every weight is zero, and one per position when none is |
| ResampleOpOld.FlaggedCellsReadOutside | src/old/ResampleOpOld.java:214-276 | a cell's weight is zero exactly when its mirrored position lies outside the source (the "flagged" cells that must not be used) |
| ResampleOpOld.CorrectedNumContributors | src/old/ResampleOpOld.java:196-248 | the corrected row length (twice the half-width rounded up, plus two) is at least 3 |
| ResampleOpOld.RowFitsCorrected | src/old/ResampleOpOld.java:196-277 | every row's window `floor(center-width) .. ceil(center+width)` is non-empty and no longer than the corrected row length, so every row of cells fits its slot |
| ResampleOpOld.AsWrittenBoxEnlargementOverflows | src/old/ResampleOpOld.java:248-276 | with the Box curve from 2 to 4 pixels the allocated row length is 2 but rows 0 and 3 hold 3 cells: row 0 runs into row 1's slot and row 3 runs past the table's end |
| ResampleOpOld.DivideAll | src/old/ResampleOpOld.java:239-289 | every weight of the row is divided by the same total, position by position |
| ResampleOpOld.NormalizedSumsToOne | src/old/ResampleOpOld.java:231-290 | normalising a row with a nonzero total makes its weights sum to 1; a zero total leaves the row unchanged; a weight becomes zero exactly when it was zero (flagged cells stay flagged) |
| ResampleOpOld.Table | src/old/ResampleOpOld.java:34-38 | the flattened layout has `dstSize * numContributors` entries, row `i` starting at `i * numContributors`, with the corrected row length (also lines 197-198, 249-250; see Left out) |
| ResampleOpOld.TableCell | src/old/ResampleOpOld.java:203-276 | entry `r * numContributors + k` of the flattened table is cell `k` of row `r` when the row has one, and the zero of a fresh Java array otherwise, with the corrected row length (see Left out) |
| ResampleOpOld.Rows | src/old/ResampleOpOld.java:202-291 | the rows of cells of an axis, one per destination pixel, each fitting the corrected row length |
| ResampleOpOld.RowsAreRowTaps | src/old/ResampleOpOld.java:202-277 | row `i` of the table is exactly the cells of destination pixel `i`'s window, in window order |
| ResampleOpOld.CreateSubSampling | src/old/ResampleOpOld.java:183-294 | the returned `SubSamplingData` holds fresh arrays: the per-row cell counts, and the pixel and normalised weight tables laid out row by row; the row length is the corrected `ceil(2w) + 2`, not the source's (see Left out) |
| ResampleOpOld.WriteRows | src/old/ResampleOpOld.java:202-291 | the loop over destination pixels fills every row's count, pixels and normalised weights |
| ResampleOpOld.RowWindow | src/old/ResampleOpOld.java:203-256 | the window `left .. right` of row `i` (curve squeezed by `fNormFac` when reducing) fits the row length and its cells are row `i`'s |
| ResampleOpOld.WriteRow | src/old/ResampleOpOld.java:203-290 | one row: `arrN[i]` becomes the row's cell count, its slot gets the pixels and the normalised weights, and nothing outside the slot changes |
| ResampleOpOld.FillRow | src/old/ResampleOpOld.java:207-277 | the inner loop over window positions writes the cells in order, skips zero weights, and counts them in `arrN[i]` |
| ResampleOpOld.PutTap | src/old/ResampleOpOld.java:222-276 | one cell goes to slot position `arrN[i]`, which is then incremented; other rows' counts are untouched |
| ResampleOpOld.NormalizeRow | src/old/ResampleOpOld.java:233-290 | the row's first `arrN[i]` weights are replaced by their normalised values and the rest of the table is unchanged |
| ResampleOpOld.ToByteClamped | src/old/ResampleOpOld.java:468-476 | negative samples give 0, samples above 255 give 255, and samples in between are rounded half up (`b <= f + 0.5 < b + 1`) |
| ResampleOpOld.ToByteClampedIsMonotone | src/old/ResampleOpOld.java:468-476 | the clamp keeps the order of samples, and every channel value 0..255 comes back unchanged |
| ResampleOpOld.VisitedRows | src/old/ResampleOpOld.java:302 | a worker's loop `x = start; x < n; x += delta` visits exactly the rows `x` with `x % delta == start`, in increasing order, each once (also lines 343, 388, 442) |
| ResampleOpOld.WorkersPartitionRows | src/old/ResampleOpOld.java:137-158 | the `numberOfThreads` workers together visit every row, and no row is visited by two workers |
| ResampleOpOld.ResultImageType | src/old/ResampleOpOld.java:482-487 | 3 channels give TYPE_3BYTE_BGR, 4 give TYPE_4BYTE_ABGR, and any other count gives TYPE_USHORT_GRAY for a 16-bit source and TYPE_BYTE_GRAY otherwise, each exactly in that case |
| ResampleOpOld.AsWrittenUShortGrayResultIsRefused | src/old/ResampleOpOld.java:163-165 | a one-channel 16-bit source gets a TYPE_USHORT_GRAY result, and `setBGRPixels` then refuses the resampler's bytes (also lines 482-487); the refusal is latent, since reading such a source fails earlier (see Findings) |
| ResampleOpOld.CorrectedResultImageType | src/old/ResampleOpOld.java:482-487 | the result type for byte samples: 3BYTE_BGR, 4BYTE_ABGR or BYTE_GRAY, each exactly by channel count |
| ResampleOpOld.CorrectedResultTakesBytes | src/old/ResampleOpOld.java:163-165 | `setBGRPixels` writes the resampler's bytes unchanged into every corrected result type |
| ResampleOpOld.Mirror | src/old/ResampleOpOld.java:213-219 | a position inside the source reads itself, and a position less than one source length outside it is reflected back inside |
| ResampleOpOld.AsWrittenNumContributors | src/old/ResampleOpOld.java:196 | the row length the source allocates (`(int)(2w + 2)` when reducing, `(int)(2 * fwidth + 1)` when enlarging) is at most the corrected length and at most 2 below it (also line 248) |
| Sampling.SamplingRadius | src/org/digitalmodular/imageutilities/resize/SamplingDataCalculator.java:141-144 | the radius in source pixels is the curve's radius divided by the scale when shrinking (so radius times scale gives it back) and the curve's radius otherwise |
| Sampling.NumSamples | src/org/digitalmodular/imageutilities/resize/SamplingDataCalculator.java:130-134 | the number of samples is the sampling diameter rounded up: `2r <= n < 2r + 1`, and at least one |
| Sampling.Clamp | src/org/digitalmodular/imageutilities/resize/SamplingDataCalculator.java:101 | a source position is clamped into `0 .. srcSize - 1` |
| Sampling.RawRow | src/org/digitalmodular/imageutilities/resize/SamplingDataCalculator.java:94-100 | row `i` has one raw curve weight per sample |
| Sampling.Normalized | src/org/digitalmodular/imageutilities/resize/SamplingDataCalculator.java:110-120 | a row keeps its length when it is normalised |
| Sampling.WeightRow | src/org/digitalmodular/imageutilities/resize/SamplingDataCalculator.java:94-120 | row `i`'s stored weights have one entry per sample |
| Sampling.CreateSubSampling | src/org/digitalmodular/imageutilities/resize/SamplingDataCalculator.java:61-123 | the returned tables are exactly the expected tables of the axis, in both layouts |
| Sampling.ComputeRows | src/org/digitalmodular/imageutilities/resize/SamplingDataCalculator.java:86-121 | the row loop fills every row of both layouts with clamped indices and normalised weights |
| Sampling.ComputeRow | src/org/digitalmodular/imageutilities/resize/SamplingDataCalculator.java:87-120 | one iteration fills row `i` of both layouts, at `subIndex = i * numSamples` in the flat one |
| Sampling.FillRow | src/org/digitalmodular/imageutilities/resize/SamplingDataCalculator.java:88-108 | sample `t` of row `i` gets the clamped index times the stride and the raw curve weight, in both layouts at once; no other row changes |
| Sampling.RowSum | src/org/digitalmodular/imageutilities/resize/SamplingDataCalculator.java:111-113 | the sum accumulates row `i`'s raw weights front to back |
| Sampling.NormalizeRow | src/org/digitalmodular/imageutilities/resize/SamplingDataCalculator.java:110-120 | both layouts of row `i` end up holding the normalised weights, and no other row changes |
| Sampling.DivideRow | src/org/digitalmodular/imageutilities/resize/SamplingDataCalculator.java:115-119 | every weight of row `i` is divided by the nonzero sum, in both layouts; no other row changes |
| SamplingProperties.LayoutsAgree | src/org/digitalmodular/imageutilities/resize/SamplingDataCalculator.java:69-106 | entry `i * numSamples + t` of the flat index and weight arrays is entry `[i][t]` of the row arrays, and lies within the flat arrays |
| SamplingProperties.IndicesAddressSourcePixels | src/org/digitalmodular/imageutilities/resize/SamplingDataCalculator.java:101-104 | every stored index lies in `0 .. (srcSize - 1) * pixelStride` and is a multiple of `pixelStride` |
| SamplingProperties.SamplesClampToEdges | src/org/digitalmodular/imageutilities/resize/SamplingDataCalculator.java:101-104 | a sample inside the image addresses its own pixel; one before or after it addresses the first or last pixel |
| SamplingProperties.IndicesNondecreasing | src/org/digitalmodular/imageutilities/resize/SamplingDataCalculator.java:91-101 | within a row the stored indices never decrease |
| SamplingProperties.WindowPosition | src/org/digitalmodular/imageutilities/resize/SamplingDataCalculator.java:89-94 | sample `t` lies between `t - r` and `t - r + 1` from the row's centre, so the window starts within one pixel left of `-r` |
| SamplingProperties.WindowCoversCurve | src/org/digitalmodular/imageutilities/resize/SamplingDataCalculator.java:91-134 | a position just outside the window gets weight zero from every curve but Box, so the window loses no contribution |
| SamplingProperties.NormalizedSumsToOne | src/org/digitalmodular/imageutilities/resize/SamplingDataCalculator.java:110-120 | a row with a nonzero sum sums to one after normalisation; a zero-sum row is left unchanged |
| SamplingProperties.WeightRowsSumToOne | src/org/digitalmodular/imageutilities/resize/SamplingDataCalculator.java:110-120 | every row of the table sums to one unless its raw weights sum to zero, in which case it keeps the raw weights |
| SamplingProperties.WithOffset | src/org/digitalmodular/imageutilities/resize/SamplingDataCalculator.java:61-64 | changing the offset keeps the arguments valid or invalid |
| SamplingProperties.OffsetShiftsCenters | src/org/digitalmodular/imageutilities/resize/SamplingDataCalculator.java:76-89 | an offset moves every destination centre by `-offset / scale` source pixels |
| SamplingProperties.CentersAreSymmetric | src/org/digitalmodular/imageutilities/resize/SamplingDataCalculator.java:74-89 | without offset, destination pixels `i` and `dstSize - 1 - i` lie symmetrically about the source's centre |
| SamplingProperties.IdentityCenter | src/org/digitalmodular/imageutilities/resize/SamplingDataCalculator.java:76-89 | with equal sizes, scale 1 and no offset, the centre offset is 0 and row `i`'s centre is exactly `i` |
| SamplingProperties.IdentityScalingCopiesPixels | src/org/digitalmodular/imageutilities/resize/SamplingDataCalculator.java:76-120 | with equal sizes, scale 1 and no offset, row `i` gives source pixel `i` weight 1 and every other sample weight 0 (for every curve but Box) |
| PixelCodec.EncodeLinear | src/org/digitalmodular/imageutilities/resize/ImageResamplerShort.java:466 | a linear byte becomes a level in `-16384 .. 16256` that is a multiple of 128 above `-16384` |
| PixelCodec.DecodeLinear | src/org/digitalmodular/imageutilities/resize/ImageResamplerShort.java:1023 | a level decodes to a byte: `<= -16384` gives 0, `>= 16256` gives 255 (the byte -1), anything between `(s + 16384) >> 7` |
| PixelCodec.LinearRoundTrip | src/org/digitalmodular/imageutilities/resize/ImageResamplerShort.java:466 | every byte 0..255 survives encoding followed by decoding (also line 1023) |
| PixelCodec.DecodeLinearRoundsDown | src/org/digitalmodular/imageutilities/resize/ImageResamplerShort.java:1023 | between the end levels decoding picks the largest byte whose level does not exceed `s` |
| PixelCodec.DecodeLinearIsMonotone | src/org/digitalmodular/imageutilities/resize/ImageResamplerShort.java:1023 | decoding never reverses the order of two levels |
| PixelCodec.PremultiplyBounds | src/org/digitalmodular/imageutilities/resize/ImageResamplerShort.java:479-509 | a premultiplied colour level lies between black and the alpha's own level; alpha 255 gives exactly the plain encoding and alpha 0 gives black |
| PixelCodec.AlphaLevel | src/org/digitalmodular/imageutilities/resize/ImageResamplerShort.java:1038-1061 | the alpha level is clamped into `0 .. 32640` |
| PixelCodec.DecodeAlpha | src/org/digitalmodular/imageutilities/resize/ImageResamplerShort.java:1038-1070 | the alpha byte `(byte)(a >> 7)` of the clamped level is always in 0..255 |
| PixelCodec.DecodeAlphaIsLinear | src/org/digitalmodular/imageutilities/resize/ImageResamplerShort.java:1023-1045 | decoding alpha through its clamped level agrees with plain linear decoding, for every level |
| PixelCodec.DecodeUnPremultiplied | src/org/digitalmodular/imageutilities/resize/ImageResamplerShort.java:1046-1073 | an un-premultiplied colour at or below 0 gives 0, at or above 32640 gives 255, and in between gives the floor of `g / 128` (the shift by 7); always a byte |
| PixelCodec.OpaqueUnPremultiplyIsLinear | src/org/digitalmodular/imageutilities/resize/ImageResamplerShort.java:1037-1046 | for an opaque pixel un-premultiplying changes nothing: the colour decodes as plain linear decoding would |
| PixelCodec.TransparentDecodesBlackUnlessLevelPositive | src/org/digitalmodular/imageutilities/resize/ImageResamplerShort.java:1037-1046 | for a fully transparent pixel the float division by zero sends a colour above black to 255 and a black one to 0 |
| PixelCodec.OpaqueRoundTrip | src/org/digitalmodular/imageutilities/resize/ImageResamplerShort.java:479-485 | an opaque colour byte survives premultiplying, the alpha-aware decoding and un-premultiplying (also lines 1037-1046) |
| PixelCodec.Premultiply | src/org/digitalmodular/imageutilities/resize/ImageResamplerShort.java:479-509 | a byte colour premultiplied by a byte alpha is a level between black (-16384) and the linear level of the alpha itself |
| PixelCodec.PremultiplyLevel | src/org/digitalmodular/imageutilities/resize/ImageResamplerShort.java:581-611 | a linear level within full scale premultiplied by a byte alpha lies between black and the linear level of the alpha |
| PixelCodec.UnPremultiply | src/org/digitalmodular/imageutilities/resize/ImageResamplerShort.java:1037-1046 | at full alpha un-premultiplying only shifts the level by 16384; from a level at or above black it gives a non-negative value, and for an alpha level in (0, full scale] never less than the shifted level |
| SrgbTables.LinearSegmentsInvert | src/org/digitalmodular/imageutilities/resize/ImageResamplerShort.java:98-104 | on the linear segments, `toSRGB` undoes `fromSRGB` exactly |
| SrgbTables.KneesDoNotMeet | src/org/digitalmodular/imageutilities/resize/ImageResamplerShort.java:99-103 | the two knees (0.04045 and 0.0031308) do not quite match: just below the decoding knee the linear segment already gives a value past the encoding knee |
| SrgbTables.TransferFixesBlackAndWhite | src/org/digitalmodular/imageutilities/resize/ImageResamplerShort.java:98-104 | black and white are fixed points of both transfer functions, given that `pow(1, y)` is 1 |
| SrgbTables.Round | src/org/digitalmodular/imageutilities/resize/ImageResamplerShort.java:85-92 | the rounding before the narrowing cast (`Math.floor(x + 0.5)` here, plain truncation in src/org/digitalmodular/imageutilities/resize/ImageResamplerShort2.java:69,76) stays within one of `x` |
| SrgbTables.RoundStaysBetween | src/org/digitalmodular/imageutilities/resize/ImageResamplerShort.java:85-92 | rounding a value between two integers keeps it between them |
| SrgbTables.LevelFraction | src/org/digitalmodular/imageutilities/resize/ImageResamplerShort.java:91 | a level stands for a fraction of full scale clamped to `[0, 1]` |
| SrgbTables.Expected | src/org/digitalmodular/imageutilities/resize/ImageResamplerShort.java:82-95 | the four tables have 256, 256, 65536 and 65536 entries, shorts in the first two and bytes in the others |
| SrgbTables.SlotOfLevel | src/org/digitalmodular/imageutilities/resize/ImageResamplerShort.java:92-94 | slot `s & 0xFFFF` of the plain table and slot `(s + 16384) & 0xFFFF` of the offset table belong to level `s` and to no other level |
| SrgbTables.InitTables | src/org/digitalmodular/imageutilities/resize/ImageResamplerShort.java:82-95 | the static initialiser leaves the four tables exactly as expected (the same with truncation for src/org/digitalmodular/imageutilities/resize/ImageResamplerShort2.java:66-80) |
| SrgbTables.InitByteTables | src/org/digitalmodular/imageutilities/resize/ImageResamplerShort.java:83-88 | the first loop fills entry `b` of both byte-indexed tables for every byte: the linear level, and the level plus 16384 cast to short |
| SrgbTables.StoreByte | src/org/digitalmodular/imageutilities/resize/ImageResamplerShort.java:84-87 | one iteration writes byte `b`'s entries of both tables and nothing else |
| SrgbTables.InitShortTables | src/org/digitalmodular/imageutilities/resize/ImageResamplerShort.java:90-95 | the second loop fills both level-indexed tables for every short level |
| SrgbTables.StoreLevel | src/org/digitalmodular/imageutilities/resize/ImageResamplerShort.java:91-94 | one iteration writes level `s`'s entry in both tables, and every level below `s` stays filled |
| SrgbTables.FilledTablesAreExpected | src/org/digitalmodular/imageutilities/resize/ImageResamplerShort.java:90-95 | once every level is filled, the two level tables are the expected ones |
| SrgbTables.EntriesOfLevel | src/org/digitalmodular/imageutilities/resize/ImageResamplerShort.java:92-94 | `SHORT_TO_BYTE_SRGB[s & 0xFFFF]` and `SHORT2_TO_BYTE_SRGB[(s + 16384) & 0xFFFF]` both hold the sRGB byte of level `s` |
| SrgbTables.OffsetTableAgrees | src/org/digitalmodular/imageutilities/resize/ImageResamplerShort.java:94 | `SHORT2_TO_BYTE_SRGB[(s + 16384) & 0xFFFF] == SHORT_TO_BYTE_SRGB[s & 0xFFFF]` for every short `s` |
| SrgbTables.ShortToByteClamps | src/org/digitalmodular/imageutilities/resize/ImageResamplerShort.java:91-92 | `SHORT_TO_BYTE_SRGB` is constant on every level at or below -16384 and on every level at or above 16256 |
| SrgbTables.OffsetLevelsAreShifted | src/org/digitalmodular/imageutilities/resize/ImageResamplerShort.java:85-87 | when the transfer function maps into `[0, 1]`, every level lies in `-16384 .. 16256` and `BYTE_SRGB_TO_SHORT2[b] == BYTE_SRGB_TO_SHORT[b] + 16384` |
| SrgbTables.TablesFixBlackAndWhite | src/org/digitalmodular/imageutilities/resize/ImageResamplerShort.java:82-95 | bytes 0 and 255 map to the levels -16384 and 16256, and those levels map back to 0 and 255 |
| SrgbTables.ToSRGB | src/org/digitalmodular/imageutilities/resize/ImageResamplerShort.java:98-100 | below the linear knee 0.0031308 the encoded value is at least the linear one and below the sRGB knee 0.04045 |
| SrgbTables.FromSRGB | src/org/digitalmodular/imageutilities/resize/ImageResamplerShort.java:102-104 | below the sRGB knee 0.04045 the decoded value lies between 0 and the encoded one |
| ConvertWorkers.ConversionMeetsSettings | src/org/digitalmodular/imageutilities/resize/ImageResamplerShort.java:392-411 | the pre-conversion linearises exactly when the source is sRGB and that is not ignored; it premultiplies exactly when there is an alpha channel that is neither already premultiplied nor to be left alone; it needs the alpha-first layout exactly when there is an alpha channel and it linearises or premultiplies; the post-conversion chosen is the one that undoes it (also lines 949-968) |
| ConvertWorkers.EncodeValue | src/org/digitalmodular/imageutilities/resize/ImageResamplerShort.java:466 | every variant turns a colour byte into a level that fits a short (also lines 483-485, 505-509, 524, 541-543, 563-567, 585-587, 607-611) |
| ConvertWorkers.EncodeSample | src/org/digitalmodular/imageutilities/resize/ImageResamplerShort.java:464-466 | every sample of the output is a short level, the first sample of a pixel (its alpha) encoded linearly in the alpha variants (also lines 478-486, 498-510, 522-524, 536-544, 556-568, 580-588, 600-612) |
| ConvertWorkers.DecodeUnPremultipliedSRGB | src/org/digitalmodular/imageutilities/resize/ImageResamplerShort.java:1153-1181 | an un-premultiplied sRGB colour at or below 0 gives 0, at or above 32640 gives 255, and a level `g` in between gives entry `g` of `SHORT2_TO_BYTE_SRGB`; always a byte |
| ConvertWorkers.DecodeUnPremultipliedSRGBEncodesFraction | src/org/digitalmodular/imageutilities/resize/ImageResamplerShort.java:1171-1181 | with the tables the transfer function builds, a level `0 < g < 32640` decodes to the rounded sRGB encoding of `g / 32640`, scaled to 255 |
| ConvertWorkers.DecodeValue | src/org/digitalmodular/imageutilities/resize/ImageResamplerShort.java:1023 | every variant turns a level into a byte 0..255 (also lines 1041-1046, 1064-1073, 1088, 1107, 1127-1129, 1147-1153, 1171-1181) |
| ConvertWorkers.DecodeSample | src/org/digitalmodular/imageutilities/resize/ImageResamplerShort.java:1020-1024 | every output sample of the post-conversion is a byte (also lines 1036-1047, 1059-1074, 1086-1088, 1100-1108, 1120-1130, 1142-1154, 1166-1182) |
| ConvertWorkers.EncodeAll | src/org/digitalmodular/imageutilities/resize/ImageResamplerShort.java:455-612 | pre-converting a buffer keeps its length |
| ConvertWorkers.PlainRoundTrip | src/org/digitalmodular/imageutilities/resize/ImageResamplerShort.java:466 | without sRGB and premultiplication every byte survives pre- and post-conversion (also line 1023) |
| ConvertWorkers.AlphaRoundTrip | src/org/digitalmodular/imageutilities/resize/ImageResamplerShort.java:479 | every alpha variant carries the alpha byte through pre- and post-conversion unchanged (also lines 483, 1037-1045, 1101-1105) |
| ConvertWorkers.OpaquePixelRoundTrip | src/org/digitalmodular/imageutilities/resize/ImageResamplerShort.java:469-486 | the colour of an opaque pixel survives premultiplication and un-premultiplication (also lines 1027-1047) |
| ConvertWorkers.StripeOffsetIsPixelAligned | src/org/digitalmodular/imageutilities/resize/ImageResamplerShort.java:386-387 | a stripe's start `row * width * c` is the first sample of a pixel (also lines 942-943) |
| ConvertWorkers.ConvertSamples | src/org/digitalmodular/imageutilities/resize/ImageResamplerShort.java:464-466 | the per-sample loop converts exactly the samples `[begin, end)` and leaves every other sample of the output unchanged (also lines 522-524, 1020-1024, 1086-1088) |
| ConvertWorkers.ConvertPixels2 | src/org/digitalmodular/imageutilities/resize/ImageResamplerShort.java:478-486 | the two-channel loop converts the alpha sample of each pixel on its own and the gray sample given that alpha, within `[begin, end)` only (also lines 536-544, 580-588, 1036-1047, 1100-1108, 1142-1154) |
| ConvertWorkers.ConvertPixels4 | src/org/digitalmodular/imageutilities/resize/ImageResamplerShort.java:498-510 | the four-channel loop converts each pixel's alpha on its own and its three colours given that alpha, within `[begin, end)` only (also lines 556-568, 600-612, 1059-1074, 1120-1130, 1166-1182) |
| ConvertWorkers.ConvertPixel4 | src/org/digitalmodular/imageutilities/resize/ImageResamplerShort.java:499-509 | one four-sample pixel at `p` is converted and nothing else changes (also lines 1060-1073) |
| ConvertWorkers.ConvertPixels | src/org/digitalmodular/imageutilities/resize/ImageResamplerShort.java:416-453 | dispatches on the channel count 2 or 4, with the same result as either loop (also lines 972-1008) |
| ConvertWorkers.PreConvertWorker | src/org/digitalmodular/imageutilities/resize/ImageResamplerShort.java:377-454 | a worker for rows `[begin, end)` fails (AssertionError) exactly when an alpha variant meets a channel count other than 2 or 4; otherwise it writes the encoded samples of exactly `[begin*width*c, end*width*c)`; nothing outside that range changes |
| ConvertWorkers.PreConvertRange | src/org/digitalmodular/imageutilities/resize/ImageResamplerShort.java:455-612 | the selected pre-conversion fills `[begin, end)` sample by sample and changes nothing else |
| ConvertWorkers.PostConvertWorker | src/org/digitalmodular/imageutilities/resize/ImageResamplerShort.java:933-1008 | a worker for rows `[begin, end)` fails exactly when an alpha variant meets a channel count other than 2 or 4; otherwise it writes the decoded bytes of exactly `[begin*width*c, end*width*c)`; nothing outside that range changes |
| ConvertWorkers.PostConvertRange | src/org/digitalmodular/imageutilities/resize/ImageResamplerShort.java:1011-1183 | the selected post-conversion fills `[begin, end)` sample by sample and changes nothing else |
| ConvertWorkers.SelectPreConversion | src/org/digitalmodular/imageutilities/resize/ImageResamplerShort.java:392-411 | the pre-conversion linearises sRGB exactly when the source is sRGB and sRGB is not ignored, and premultiplies exactly when there is non-premultiplied alpha that is not refused |
| ConvertWorkers.SelectPostConversion | src/org/digitalmodular/imageutilities/resize/ImageResamplerShort.java:947-966 | the post-conversion undoes exactly the conversion chosen before resampling |
| ResampleWorkers.Sample | src/org/digitalmodular/imageutilities/resize/ImageResamplerShort.java:672 | an output sample is the weighted sum cast to a short, so it always fits a short (also lines 701-702, 733-735, 768-771, 834, 861-862, 891-893, 924-927) |
| ResampleWorkers.PixelOut | src/org/digitalmodular/imageutilities/resize/ImageResamplerShort.java:665-673 | an output pixel has exactly one sample per channel (also lines 751-772, 829-835, 910-928) |
| ResampleWorkers.Aligned | src/org/digitalmodular/imageutilities/resize/ImageResamplerShort.java:631-633 | an index and weight window of equal length is taken as it is (also lines 794-796) |
| ResampleWorkers.Kernels | src/org/digitalmodular/imageutilities/resize/ImageResamplerShort.java:663-669 | the taps of output pixel `(x, y)`: horizontally entries `x * numSamples` onwards of the flat table on input row `y`; vertically row `y` of the row-wise table on column `x` (also lines 825-832) |
| ResampleWorkers.Pixels | src/org/digitalmodular/imageutilities/resize/ImageResamplerShort.java:663-673 | every output pixel of a pass has `c` samples, each the weighted sum of its own channel over the pixel's taps (also lines 825-835) |
| ResampleWorkers.Convolve | src/org/digitalmodular/imageutilities/resize/ImageResamplerShort.java:668-671 | the inner loop accumulates the weighted sum of one channel over every tap of the window (also lines 692-699, 831-833, 854-860) |
| ResampleWorkers.ResamplePixel | src/org/digitalmodular/imageutilities/resize/ImageResamplerShort.java:700-702 | the `c` samples of one output pixel are written at `u` and nothing else changes (also lines 767-771, 861-862, 924-927) |
| ResampleWorkers.ResampleRow | src/org/digitalmodular/imageutilities/resize/ImageResamplerShort.java:665-673 | one output row of `width` pixels is written, one after the other, from `u` on (also lines 751-772, 829-835, 910-928) |
| ResampleWorkers.NextPixel | src/org/digitalmodular/imageutilities/resize/ImageResamplerShort.java:665-673 | one step of the pixel loop appends pixel `x` of the row after those already written (also lines 829-835) |
| ResampleWorkers.ResampleRows | src/org/digitalmodular/imageutilities/resize/ImageResamplerShort.java:663-674 | rows `begin .. begin + count - 1` are written one after the other from sample `lo` on (also lines 749-773, 825-836, 906-929) |
| ResampleWorkers.NextRow | src/org/digitalmodular/imageutilities/resize/ImageResamplerShort.java:663-674 | one step of the row loop appends row `begin + i` after those already written (also lines 825-836) |
| ResampleWorkers.RowRangeOffsets | src/org/digitalmodular/imageutilities/resize/ImageResamplerShort.java:700 | rows `[begin, end)` of `width` pixels of `c` samples occupy exactly the samples `[begin * width * c, end * width * c)` (also lines 826, 848, 876, 907) |
| ResampleWorkers.HorizontalResampleWorker | src/org/digitalmodular/imageutilities/resize/ImageResamplerShort.java:616-775 | fails (AssertionError) exactly for more than four channels, then changing nothing; otherwise writes output rows `[begin, end)`, `dstWidth` pixels each, as the resampled rows, and nothing outside them |
| ResampleWorkers.VerticalResampleWorker | src/org/digitalmodular/imageutilities/resize/ImageResamplerShort.java:777-931 | fails exactly for more than four channels, then changing nothing; otherwise writes output rows `[begin, end)`, `width` pixels each, from the input's columns, and nothing outside them |
| ResampleWorkers.PixelAddress | src/org/digitalmodular/imageutilities/resize/ImageResamplerShort.java:672 | sample `ch` of output pixel `x` on row `y` sits at `(x + y * width) * c + ch` and is that pixel's resampled channel (also lines 700, 732, 767, 826, 848, 876, 907) |
| ResampleWorkers.DotOfFlat | src/org/digitalmodular/imageutilities/resize/ImageResamplerShort.java:668-671 | over taps that all read the same value the sum is that value times the sum of the weights |
| ResampleWorkers.FlatStaysFlat | src/org/digitalmodular/imageutilities/resize/ImageResamplerShort.java:668-672 | with weights that sum to one, a flat area stays flat: the resampled sample is its value |
| ResampleWorkers.DotIsBounded | src/org/digitalmodular/imageutilities/resize/ImageResamplerShort.java:668-671 | with non-negative weights the sum lies between the smallest and largest tap times the sum of the weights |
| ResampleWorkers.NonNegativeWeightsDoNotOvershoot | src/org/digitalmodular/imageutilities/resize/ImageResamplerShort.java:668-672 | with non-negative weights that sum to one the output sample lies between the smallest and the largest input sample it reads |
| ResampleWorkers.UnitKernelCopies | src/org/digitalmodular/imageutilities/resize/ImageResamplerShort.java:668-671 | a weight of one on one tap and zero on the others copies that tap's sample |
| ResampleWorkers.HorizontalKernelFits | src/org/digitalmodular/imageutilities/resize/ImageResamplerShort.java:664-693 | with the channel count as pixel stride, every tap of a horizontal window reads inside input row `y` |
| ResampleWorkers.HorizontalTapFits | src/org/digitalmodular/imageutilities/resize/ImageResamplerShort.java:667-693 | tap `i` of output pixel `x` on row `y` addresses a pixel of that input row |
| ResampleWorkers.HorizontalTablesFit | src/org/digitalmodular/imageutilities/resize/ImageResamplerShort.java:663-669 | a horizontal worker's rows `[begin, end)` never read outside the input |
| ResampleWorkers.VerticalKernelFits | src/org/digitalmodular/imageutilities/resize/ImageResamplerShort.java:827-855 | with a whole row as pixel stride, every tap of a vertical window reads inside the input |
| ResampleWorkers.VerticalTablesFit | src/org/digitalmodular/imageutilities/resize/ImageResamplerShort.java:825-832 | a vertical worker's rows `[begin, end)` never read outside the input |
| Buffers.Times | src/org/digitalmodular/imageutilities/resize/ImageResamplerShort.java:750 | a row offset built as a product of a count and a non-negative stride is never negative |
| Buffers.TimesIsProduct | src/org/digitalmodular/imageutilities/resize/ImageResamplerShort.java:750 | the offset built by repeated addition is the product `srcWidth * y * channels` |
| Buffers.RowLength | src/org/digitalmodular/imageutilities/resize/ImageResamplerShort.java:767 | a row of `x` pixels of `c` channels occupies `x * c` samples |
| Buffers.RowsLength | src/org/digitalmodular/imageutilities/resize/ImageResamplerShort.java:750 | `count` rows of `width` pixels occupy `count * width * c` samples |
| Buffers.RowIsPrefix | src/org/digitalmodular/imageutilities/resize/ImageResamplerShort.java:767 | the samples of the first `x` pixels of a row begin the samples of any longer prefix of that row |
| Buffers.RowsIsPrefix | src/org/digitalmodular/imageutilities/resize/ImageResamplerShort.java:750 | the samples of the first `count` rows begin the samples of any larger number of rows |
| Buffers.RowsAt | src/org/digitalmodular/imageutilities/resize/ImageResamplerShort.java:767-771 | channel `i` of pixel `x` in row `begin + r` sits at offset (rows before it) + (pixels before it in its row) + `i` of the flat buffer, the row-major address `(x + y * width) * channels + i` |
| ResamplePipeline.ResampleOrderIsMinimal | src/org/digitalmodular/imageutilities/resize/ImageResamplerShort.java:134-224 | the order resamples exactly the axes whose size or offset changes, so it is NONE (and `resize` returns its input) exactly when both sizes stay and both offsets are zero; when both axes change it takes the cheaper of X_FIRST and Y_FIRST, X_FIRST on a tie |
| ResamplePipeline.MakeWorkBuffer | src/org/digitalmodular/imageutilities/resize/ImageResamplerShort.java:243-258 | an order without passes is an AssertionError; a single-pass order needs no work buffer (`null`), and a two-pass order gets one |
| ResamplePipeline.PreCalculateSubSampling | src/org/digitalmodular/imageutilities/resize/ImageResamplerShort.java:260-287 | an order without passes is an AssertionError, and every other order gets its tables |
| ResamplePipeline.TablesSuitPasses | src/org/digitalmodular/imageutilities/resize/ImageResamplerShort.java:243-287 | there is a horizontal table exactly when the order resamples horizontally (stride `numChannels`), and a vertical one exactly when it resamples vertically (stride a whole row of the buffer it reads: `dstWidth` after a horizontal pass, else `srcWidth`); the work buffer is `dstWidth * srcHeight * c` for X_FIRST and `srcWidth * dstHeight * c` for Y_FIRST |
| ResamplePipeline.StripesCover | src/org/digitalmodular/imageutilities/resize/ImageResamplerShort.java:303-307 | stripe `i` starts at `i * height / n`: stripe 0 starts at row 0, stripe `n` at `height`, and the starts never decrease, so the stripes are contiguous and cover every row |
| ResamplePipeline.Layer | src/org/digitalmodular/imageutilities/resize/ImageResamplerShort.java:303-334 | a layer has one worker per stripe |
| ResamplePipeline.ExpectedLayers | src/org/digitalmodular/imageutilities/resize/ImageResamplerShort.java:336-339 | three layers for a single pass and four for two |
| ResamplePipeline.MakeWorkerLists | src/org/digitalmodular/imageutilities/resize/ImageResamplerShort.java:289-340 | an order without passes is an AssertionError; otherwise layer `k` holds worker `k` of every stripe, in stripe order: pre-convert, one or two resampling steps on the right buffers and rows, and post-convert |
| ResamplePipeline.LayerWritesAreDisjoint | src/org/digitalmodular/imageutilities/resize/ImageResamplerShort.java:303-334 | the workers of one layer write the same buffer, each a row range of its own, in stripe order, so no two of them overlap (also lines 386-387, 663-673, 825-836, 942-943) |
| ResamplePipeline.LayerCoversBuffer | src/org/digitalmodular/imageutilities/resize/ImageResamplerShort.java:303-307 | the first stripe of a layer starts at sample 0 and the last ends at the end of the buffer the layer writes (source height for the pre-converter and the first pass of X_FIRST, destination height otherwise) (also lines 386-387, 942-943) |
| ResamplePipeline.LayersChainBuffers | src/org/digitalmodular/imageutilities/resize/ImageResamplerShort.java:310-333 | every middle layer resamples, the first one reads the pre-converted source, a first of two passes writes the work buffer, and the last pass writes the buffer the post-converters read |
| ResamplePipeline.Jobs | src/org/digitalmodular/imageutilities/resize/ImageResamplerShort.java:347-351 | a layer gives one queue entry per worker |
| ResamplePipeline.Clip | src/org/digitalmodular/imageutilities/resize/ImageResamplerShort.java:365-366 | a neighbour index is clipped into the layer |
| ResamplePipeline.MakeResampleQueue | src/org/digitalmodular/imageutilities/resize/ImageResamplerShort.java:342-375 | the first layer's workers are eligible in order, and every later worker is blocked on the workers of the previous layer within `numStrips` stripes of it, added layer by layer and stripe by stripe |
| ResamplePipeline.CollectDependencies | src/org/digitalmodular/imageutilities/resize/ImageResamplerShort.java:364-367 | the inner loop collects the neighbours `k` in `[j - width, j + width]` that exist, in order |
| ResamplePipeline.DependenciesAreWholeLayer | src/org/digitalmodular/imageutilities/resize/ImageResamplerShort.java:356-367 | because the neighbourhood is as wide as the number of stripes, every worker past the first layer waits for the whole previous layer |
| ResamplePipeline.DetermineResampleOrder | src/org/digitalmodular/imageutilities/resize/ImageResamplerShort.java:189-222 | the chosen order resamples horizontally exactly when the width or the horizontal offset changes, and vertically exactly when the height or the vertical offset changes |
| ResamplePipeline.StripeStart | src/org/digitalmodular/imageutilities/resize/ImageResamplerShort.java:303-307 | the start row of stripe `i` of `n` never passes the buffer's height while `i <= n` |
| ResamplePipeline.ResampleSteps | src/org/digitalmodular/imageutilities/resize/ImageResamplerShort.java:310-333 | one resample step per changing axis, horizontal first for X_FIRST and second for Y_FIRST; the first step reads the source buffer, the last writes the destination, and two steps meet in the work buffer |
| ResamplePipeline.Dependencies | src/org/digitalmodular/imageutilities/resize/ImageResamplerShort.java:356-367 | every dependency of a worker in layer `k` is the worker of a stripe of layer `k-1` within `width` stripes of its own, an existing stripe, listed in increasing stripe order without gaps |
| ResamplerShort2.DecodeLinear2 | src/org/digitalmodular/imageutilities/resize/ImageResamplerShort2.java:485-492 | a level decodes to a byte: at most -16257 is 0, at least 16256 is 255 |
| ResamplerShort2.LinearDecodersAgree | src/org/digitalmodular/imageutilities/resize/ImageResamplerShort2.java:485-492 | this revision's `postConvert`, whose zero threshold is -16257, decodes every level exactly as the later revision's does |
| ResamplerShort2.ScaledSample | src/org/digitalmodular/imageutilities/resize/ImageResamplerShort2.java:402-419 | a colour byte weighed by its alpha lies between 0 and the alpha's own level above black, and is the plain level for an opaque pixel |
| ResamplerShort2.Weigh | src/org/digitalmodular/imageutilities/resize/ImageResamplerShort2.java:402-419 | `c * (top / 255)` lies between 0 and `top`, and for the full alpha scale it is `c * 128` |
| ResamplerShort2.PremultiplyFloatBounds | src/org/digitalmodular/imageutilities/resize/ImageResamplerShort2.java:395-423 | a colour premultiplied in float lies between black and the alpha's level; opaque leaves the colour's plain level and transparent gives black |
| ResamplerShort2.ChannelCountsPremultiplyDifferently | src/org/digitalmodular/imageutilities/resize/ImageResamplerShort2.java:455-483 | the two-channel (float) and four-channel (integer) sRGB premultiplications give different levels for the same colour and alpha |
| ResamplerShort2.AlphaInverse | src/org/digitalmodular/imageutilities/resize/ImageResamplerShort2.java:503-514 | the float inverse of alpha is at least 1, and exactly 1 at or beyond the ends of the range |
| ResamplerShort2.DecodeAlphaAsWritten | src/org/digitalmodular/imageutilities/resize/ImageResamplerShort2.java:505-579 | the alpha decoder as written still yields a byte, whatever the level |
| ResamplerShort2.DecodeColorAsWritten | src/org/digitalmodular/imageutilities/resize/ImageResamplerShort2.java:506-519 | the colour decoder as written still yields a byte, whatever the levels |
| ResamplerShort2.UnclampedDecodersWrap | src/org/digitalmodular/imageutilities/resize/ImageResamplerShort2.java:503-519 | as written, alpha 16384 decodes to 0 and -16385 to 255, and an opaque colour level 16400 to 0, where the clamping decoders give 255, 0 and 255 |
| ResamplerShort2.DecodeColor | src/org/digitalmodular/imageutilities/resize/ImageResamplerShort2.java:494-522 | the corrected colour decoder yields a byte |
| ResamplerShort2.CorrectedDecodersClamp | src/org/digitalmodular/imageutilities/resize/ImageResamplerShort2.java:494-522 | the corrected alpha decoder keeps the order of levels, and both corrected decoders agree with the ones as written wherever those do not overflow a byte |
| ResamplerShort2.OpaqueFloatRoundTrip | src/org/digitalmodular/imageutilities/resize/ImageResamplerShort2.java:395-423 | an opaque colour comes back unchanged through the float premultiplication and its inverse (also lines 494-522) |
| ResamplerShort2.AlphaInverseFixed | src/org/digitalmodular/imageutilities/resize/ImageResamplerShort2.java:565-577 | the fixed-point inverse of alpha is at least 1.0 in 16.16, and exactly 1.0 at or beyond the ends of the range |
| ResamplerShort2.DecodeSRGBUnPremultiplied2 | src/org/digitalmodular/imageutilities/resize/ImageResamplerShort2.java:556-589 | the sRGB un-premultiplying decoder reads a byte from `SHORT2_TO_BYTE_SRGB` |
| ResamplerShort2.OpaqueSRGBUnPremultiplyIsPlain | src/org/digitalmodular/imageutilities/resize/ImageResamplerShort2.java:63-64 | for an opaque pixel the fixed-point un-premultiply leaves the level as is, so the offset table gives the same byte as `SHORT_TO_BYTE_SRGB` (also lines 74-78, 565-569) |
| ResamplerShort2.TruncatedEntriesAreAtMostOneBelow | src/org/digitalmodular/imageutilities/resize/ImageResamplerShort2.java:74-78 | a table entry made by truncation is never above the rounded one of the later revision and at most one below it |
| ResamplerShort2.PostSelectionMismatch | src/org/digitalmodular/imageutilities/resize/ImageResamplerShort2.java:274-330 | the post-conversion as written is the inverse of the pre-conversion for every combination of settings except an sRGB image with straight alpha and `dontPreAlpha`, where it un-premultiplies colours that were never premultiplied |
| ResamplerShort2.Encode2Value | src/org/digitalmodular/imageutilities/resize/ImageResamplerShort2.java:387-483 | each pre-conversion variant gives a short level |
| ResamplerShort2.Encode2Sample | src/org/digitalmodular/imageutilities/resize/ImageResamplerShort2.java:387-483 | alpha samples (the first of each pixel) encode linearly; colour samples go through the variant, weighed by their own pixel's alpha |
| ResamplerShort2.Decode2Value | src/org/digitalmodular/imageutilities/resize/ImageResamplerShort2.java:485-589 | each post-conversion variant gives a byte |
| ResamplerShort2.Decode2Sample | src/org/digitalmodular/imageutilities/resize/ImageResamplerShort2.java:485-589 | alpha samples decode linearly with clamping; colour samples go through the variant with their own pixel's alpha |
| ResamplerShort2.Encode2All | src/org/digitalmodular/imageutilities/resize/ImageResamplerShort2.java:387-483 | the pre-conversion keeps the number of samples |
| ResamplerShort2.Decode2All | src/org/digitalmodular/imageutilities/resize/ImageResamplerShort2.java:485-589 | the post-conversion keeps the number of samples |
| ResamplerShort2.Plain2RoundTrip | src/org/digitalmodular/imageutilities/resize/ImageResamplerShort2.java:387-393 | without sRGB or premultiplication every byte comes back unchanged, so an image that needs no resampling is returned as it was (also lines 485-492) |
| ResamplerShort2.Alpha2RoundTrip | src/org/digitalmodular/imageutilities/resize/ImageResamplerShort2.java:395-483 | every alpha variant returns the alpha byte unchanged (also lines 494-589) |
| ResamplerShort2.OpaquePixel2RoundTrip | src/org/digitalmodular/imageutilities/resize/ImageResamplerShort2.java:395-423 | an opaque pixel's colours come back unchanged through the float premultiplication (also lines 494-522) |
| ResamplerShort2.PreConvert2 | src/org/digitalmodular/imageutilities/resize/ImageResamplerShort2.java:274-295 | one job writes the pre-converted level of every sample in its range and nothing else; an alpha variant with neither 2 nor 4 channels writes nothing (also lines 387-483) |
| ResamplerShort2.PreConvertRange2 | src/org/digitalmodular/imageutilities/resize/ImageResamplerShort2.java:387-483 | the loops of one variant write exactly the encoded samples of the range |
| ResamplerShort2.PostConvert2 | src/org/digitalmodular/imageutilities/resize/ImageResamplerShort2.java:309-330 | one job writes the post-converted byte of every sample in its range and nothing else; an alpha variant with neither 2 nor 4 channels writes nothing (also lines 485-589) |
| ResamplerShort2.PostConvertRange2 | src/org/digitalmodular/imageutilities/resize/ImageResamplerShort2.java:485-589 | the loops of one variant write exactly the decoded samples of the range |
| ResamplerShort2.ConvertStripesCover | src/org/digitalmodular/imageutilities/resize/ImageResamplerShort2.java:270-307 | with the boundaries computed without wrap-around, dividing pixels before multiplying by channels puts every boundary on a whole pixel; the first job starts at 0, the last ends at the end of the buffer and the boundaries never decrease (see Findings) |
| ResamplerShort2.ConvertBoundaryAsWritten | src/org/digitalmodular/imageutilities/resize/ImageResamplerShort2.java:271-272 | the boundary computed as in the source, in 32-bit `int`, is an `int` (also lines 306-307) |
| ResamplerShort2.AsWrittenBoundaryAgreesInRange | src/org/digitalmodular/imageutilities/resize/ImageResamplerShort2.java:271-272 | while `n * height * width` and `height * width * channels` fit in an `int`, the 32-bit boundary of every job `i <= n` equals the corrected one (also lines 306-307) |
| ResamplerShort2.AsWrittenStripeBoundsWrap | src/org/digitalmodular/imageutilities/resize/ImageResamplerShort2.java:271-272 | for an 8000 x 6000 three-band image over 64 jobs the 32-bit boundaries of jobs 44 and 45 are 99000000 and -100076592, where the corrected boundary of job 45 is 101250000, inside the buffer |
| ResamplerShort2.ConvertJobRange | src/org/digitalmodular/imageutilities/resize/ImageResamplerShort2.java:270-307 | each job's range lies inside the buffer and starts and ends on whole pixels |
| ResamplerShort2.ProcessPreConvert | src/org/digitalmodular/imageutilities/resize/ImageResamplerShort2.java:267-300 | the jobs together pre-convert every sample of the source with the variant the settings select, and leave the rest of the buffer alone |
| ResamplerShort2.ProcessPostConvert | src/org/digitalmodular/imageutilities/resize/ImageResamplerShort2.java:302-335 | the jobs together post-convert every sample of the destination with the variant that inverts the pre-conversion, and leave the rest of the buffer alone |
| ResamplerShort2.OrdersDifferOnlyOnTies | src/org/digitalmodular/imageutilities/resize/ImageResamplerShort2.java:108-136 | this revision picks the same order as the later one except on a tie between the two two-pass orders, which it gives to vertical-first |
| ResamplerShort2.PassesChain | src/org/digitalmodular/imageutilities/resize/ImageResamplerShort2.java:166-234 | `resize` runs one pass per axis that changes; the first reads the pre-converted source, the second reads the work buffer the first wrote, the last writes what the post-conversion reads, and without passes the post-conversion reads the source itself; each pass gets the row count or row width of its input |
| ResamplerShort2.ResampleOrder2 | src/org/digitalmodular/imageutilities/resize/ImageResamplerShort2.java:108-136 | the order resamples horizontally exactly when the width or horizontal offset changes, and vertically exactly when the height or vertical offset changes |
| ResamplerShort2.Passes | src/org/digitalmodular/imageutilities/resize/ImageResamplerShort2.java:166-234 | one pass per changing axis; the first reads the source buffer, the last writes the destination, and two passes work on different axes and meet in the work buffer |
| ResamplerShort2.PremultiplyFloat | src/org/digitalmodular/imageutilities/resize/ImageResamplerShort2.java:395-423 | a byte colour premultiplied in floating point by a byte alpha lies between black (-16384) and the linear level of the alpha |
| ResamplerShort2.PremultiplyLevelFloat | src/org/digitalmodular/imageutilities/resize/ImageResamplerShort2.java:455-483 | a linear level within full scale premultiplied in floating point by a byte alpha lies between black and the linear level of the alpha |
| ResamplerShort2.UnPremultiplyFloat | src/org/digitalmodular/imageutilities/resize/ImageResamplerShort2.java:503-514 | from a level at or above black the result is never below the level shifted by 16384, and an alpha sample at or below -16384 or at or above 16256, where the source keeps the inverse alpha at 1, only shifts it |
| ResamplerShort2.PostSelectionAsWritten | src/org/digitalmodular/imageutilities/resize/ImageResamplerShort2.java:309-330 | the post-conversion decodes sRGB exactly when the source is sRGB and sRGB is not ignored, and un-premultiplies exactly when there is non-premultiplied alpha and either pre-alpha is not refused or sRGB is decoded |

## Left out

- Threads, the executor and the completion service are not modelled, because they only schedule work. The same goes for `waitForWorkers`, `ResampleOpOld`'s thread start and join, `synchronized`, and the interruption checks in `resize`. Each stripe job is a method, and the jobs run one after another in the order the queue hands them out.
- `DependentWorkerQueue.takeEligibleWorker` blocks on an empty queue. The model requires a non-empty eligible queue instead, because blocking needs a second thread.
- Floating-point arithmetic is modelled with exact reals, because the library promises nothing about float rounding. This covers the float multiply-accumulate of the resampling loops, the float un-premultiply, the sampling centres and weights, and the curves.
  - Float-to-int casts are modelled as truncation toward zero. Their saturation at the int range and their NaN behaviour are not modelled.
  - A float sum that is not exactly 1 after normalising is not modelled.
- `Math.pow` in the sRGB transfer functions (IEC 61966-2-1, clauses 5.2 and 5.3) and `Math.sin` in the Lanczos curves are parameters, because they are library numerics. Most lemmas hold for every such function. Curves.ApplyVanishesAtNonzeroIntegers, Curves.LanczosAtInteger and SamplingProperties.IdentityScalingCopiesPixels instead assume an idealised sine that is exactly 0 at every integer multiple of `PI`. Neither `Math.sin` nor the true sine is, at the decimal `PI` (`Math.sin(Math.PI)` is about 1.2e-16), so these three hold in the source only up to that rounding.
- `SAME_DIAGONAL`'s `hypot`/`rint` size is a parameter function of the target-size model, because it is floating-point library numerics.
- The order chooser's `long` efforts are unbounded integers. Their `long` wrap-around is not modelled, because it needs a product above 2^63.
- `System.nanoTime` is the parameter `now` of the timer methods, and its `long` wrap-around is not modelled, because it is a clock.
- The static `printingEnabled` switch is a parameter of each print method. The printed text is a list of `Line` values, because number formatting is Java library behaviour.
- Progress listeners, logging, `System.gc` and printing to standard output are side channels and are not modelled.
- AWT and ImageIO glue is not modelled, because it is foreign code: `makeImageCompatible`, `createCompatibleOutputImage`, rasters, colour models, `getColorSpaceType`, `analyzeImage`, the GIF loader, `getPixelsBGR`, `convert` and `copyJpegMetaData`. Images enter the model as byte arrays with their width, height and channel count.
- `ResampleOpOld`'s horizontal and vertical passes are modelled only through the rows each worker visits and the `toByte` clamp that stores each sample, because their arithmetic is the float convolution above.
- `ImageResamplerShort2`'s `processHorizontal`, `processVertical`, `resizeHorizontally` and `resizeVertically` are not modelled separately, because their loops are those of `ImageResamplerShort`'s resampling workers (`ResampleWorkers`). The model gives only the chain of passes that `resize` runs (`ResamplerShort2.PassesChain`).
- `ImageResamplerShort2`'s wiring to fields that `AbstractImageResampler` does not declare (`numBands`, `scaleWidth`, `executor`, `service`) is not modelled. The settings enter the conversion model as parameters.
- RemoveFirst: ensures only the length change and the missing-element case. `WorkerQueue.RemoveFirstSplits` and `WorkerQueue.RemoveFirstTakesOneCopy` state what is removed.
- Ints2Bytes3 and Ints2Bytes4 require that the channel indices are a permutation and that `out` has room. The source throws `ArrayIndexOutOfBoundsException` when `out` is too small, and leaves unnamed slots unwritten for other indices.
- Curves.Radius: ensures only positivity. The curve lemmas state what each radius bounds.
- SizeInts.HashCode and AnimationFrames.HashCode ensure only that the hash is a Java int. `SizeInts.EqualSizesHashAlike`, `SizeInts.HashSeparatesOneDimension`, `AnimationFrames.EqualFramesHashAlike` and `AnimationFrames.HashSeparatesDurations` state what the hash keeps apart.
- ConvertWorkers.EncodeValue, ConvertWorkers.EncodeSample, ConvertWorkers.DecodeValue and ConvertWorkers.DecodeSample ensure only the range of the result. Their meaning is stated by `ConvertWorkers.PlainRoundTrip`, `ConvertWorkers.AlphaRoundTrip` and `ConvertWorkers.OpaquePixelRoundTrip`.
- ResamplerShort2.Encode2Value, ResamplerShort2.Encode2Sample, ResamplerShort2.Decode2Value and ResamplerShort2.Decode2Sample ensure only the range of the result. Their meaning is stated by `ResamplerShort2.Plain2RoundTrip`, `ResamplerShort2.Alpha2RoundTrip` and `ResamplerShort2.OpaquePixel2RoundTrip`.
- ResamplerShort2.DecodeAlphaAsWritten, ResamplerShort2.DecodeColorAsWritten, ResamplerShort2.DecodeColor and ResamplerShort2.DecodeSRGBUnPremultiplied2 ensure only that the result is a byte. `ResamplerShort2.UnclampedDecodersWrap`, `ResamplerShort2.CorrectedDecodersClamp` and `ResamplerShort2.OpaqueSRGBUnPremultiplyIsPlain` relate them.
- ConvertWorkers.EncodeAll ensures only the length. Each sample is `ConvertWorkers.EncodeSample`, and the round-trip lemmas state what it computes.
- ResamplerShort2.Encode2All and ResamplerShort2.Decode2All ensure only the length. Each sample is their `*Sample` function, and the round-trip lemmas state what they compute.
- ImageUtility.ToUpper: upper-cases only the ASCII letters and is locale-free, and a string's length counts characters rather than UTF-16 code units. Java's `toUpperCase()` follows the default locale and all of Unicode: "ß" becomes "SS", so the length can grow, and under a Turkish locale "i" becomes "İ".
- ImageUtility.GifNamesEndInGif, ImageUtility.IsGifName and ImageUtility.ReadImageRoute hold for that ASCII upper-casing only. In Java, "a.gıf" (dotless ı) upper-cases to "A.GIF" and goes to the GIF loader, while under a Turkish locale "a.gif" upper-cases to "A.GİF" and goes to ImageIO. Neither case is in the model.
- PerformanceTimers.Longest: counts a description's length in characters, where Java's `length()` counts UTF-16 code units. The two differ for characters outside the Basic Multilingual Plane.
- ResampleOpOld.CreateSubSampling, ResampleOpOld.Table and ResampleOpOld.TableCell lay out every table row with the corrected length `ceil(2w) + 2` on every input. The source allocates `(int)(2w + 2)` cells when reducing and `(int)(2 * fwidth + 1)` when enlarging (lines 196 and 248), so the layouts differ: Lanczos3 enlarging has 7 cells per row in the source and 8 in the model. `ResampleOpOld.AsWrittenNumContributors` states that the source's length is at most the corrected one and at most 2 below it, and `ResampleOpOld.AsWrittenBoxEnlargementOverflows` in Findings shows where it is too short.
- ResizerUtilities.TargetSize: its SAME_AREA case follows the corrected rule `ResizerUtilities.SameArea`, the square root of the area ratio computed exactly and rounded half up, where the source's rule is kept as `ResizerUtilities.SameAreaAsWritten`. A floating-point fix would round with `Math.rint` (halves to even) and could differ by one at an exact half. The SAME_CIRCUMFERENCE and SAME_AREA guarantees are stated only where no `int` product overflows.
- ResamplePipeline.StripeStart: computes `i * height / numStrips` (rows of the source or of the destination) without `int` wrap-around. In the source the product wraps only when `(i + 1) * height` reaches 2^31 for some stripe, which takes a thread count set far beyond the processors, or an image tens of millions of rows tall. The conversion jobs of `ImageResamplerShort2` likewise use the corrected boundary `ResamplerShort2.ConvertBoundary`, whose wrap-around in the source is shown by `ResamplerShort2.AsWrittenStripeBoundsWrap` in Findings.
- The sRGB round trips are not claimed, because the tables come from the transfer function at float precision. Only the tables' structural relations and their black and white entries are proved.

## Findings

| source | as written | input that shows it | evidently intended | confidence | as-written member | corrected member |
|---|---|---|---|---|---|---|
| src/org/digitalmodular/imageutilities/resize/ImageResamplerShort2.java:309-330 | the sRGB branch of `processPostConvert` picks the un-premultiplying decoder whenever the source has straight alpha; it ignores `dontPreAlpha`, which `processPreConvert` honours | an sRGB image with straight alpha and `dontPreAlpha` set: colours that were never premultiplied are divided by alpha | the post-conversion variant is the inverse of the pre-conversion variant, as in `ImageResamplerShort` | high, not executed | ResamplerShort2.PostSelectionMismatch | ResamplerShort2.ProcessPostConvert |
| src/org/digitalmodular/imageutilities/resize/ImageResamplerShort2.java:503-579 | the alpha-aware decoders write `(byte)((a + 16384) >> 7)` and `(byte)(g >> 7)` without clamping, so a level beyond either end wraps round; the alpha decode is at lines 505 and 516 and again in the sRGB variants at lines 540, 548, 567 and 579 | alpha level 16384 decodes to 0 and -16385 to 255; an opaque colour level 16400 decodes to 0 | clamp to 0 and 255, as `postConvert` and the later revision do | high, not executed | ResamplerShort2.UnclampedDecodersWrap | ResamplerShort2.CorrectedDecodersClamp |
| src/org/digitalmodular/imageutilities/resize/ImageResamplerShort2.java:269-272 | the conversion jobs compute `i * height * width / numThreads * numBands` in 32-bit `int`, so the product wraps round once `i * height * width` reaches 2^31 (the same in `processPostConvert`, lines 306-307) | an 8000 x 6000 three-band image on 64 processors: job 44's range is [99000000, -100076592), which is empty, and job 45 starts at -100076592, so its first array access throws `ArrayIndexOutOfBoundsException` | boundaries computed in `long`, so that they lie between 0 and the buffer length and never decrease | high, not executed | ResamplerShort2.AsWrittenStripeBoundsWrap | ResamplerShort2.ConvertStripesCover |
| src/old/ResampleOpOld.java:246-250 | when enlarging, each row of the index and weight tables is `(int)(fwidth * 2 + 1)` cells long, which is too short for the Box curve | Box curve, 2 source pixels to 4: rows hold 2 cells, but rows 0 and 3 have 3 taps each, so row 0 overwrites row 1 and row 3 writes past the end of the table | a row as long as the widest window, `ceil(2 * width) + 2` | high, not executed | ResampleOpOld.AsWrittenBoxEnlargementOverflows | ResampleOpOld.RowFitsCorrected |
| src/old/ResampleOpOld.java:482-487 | a one-channel `USHORT` source gets a `TYPE_USHORT_GRAY` result, which `setBGRPixels` packs three bytes to a word | a 3 x 3 gray 16-bit image resampled to 3 x 3 or larger (sizes `filter` accepts): the 9 output bytes of a 3 x 3 result pack into 3 words, fewer than `w * h` = 9, and are refused. The refusal is latent: for such a source `getPixelsBGR`'s default branch (src/old/ImageUtilsOld.java:83-85) writes three bytes per pixel into a row of `srcWidth` bytes (src/old/ResampleOpOld.java:439-443) and throws `ArrayIndexOutOfBoundsException` first | a byte result type, since the resampler produces bytes | low, not executed | ResampleOpOld.AsWrittenUShortGrayResultIsRefused | ResampleOpOld.CorrectedResultTakesBytes |
| src/org/digitalmodular/imageutilities/internal/PerformanceTimer.java:62-111 | `printTotal` builds the format `"%-" + longestDescriptionLength + "s"`, and `start()` sets that length to 0 | `start()` followed by `printTotal()` with printing enabled: `%-0s` throws `MissingFormatWidthException` | a total line padded to at least the width of "Total" | high, not executed | PerformanceTimers.TotalRightAfterStartFails | PerformanceTimers.Timer.PrintTotalCorrected |
| src/org/digitalmodular/imageutilities/internal/PerformanceTimer.java:113-126 | `printTotal(long)` prints the "Total" line inside a loop over the recorded entries | two recorded entries print the same "Total" line twice; none prints nothing | exactly one "Total" line | high, not executed | PerformanceTimers.TotalWithWorkloadRepeats | PerformanceTimers.Timer.PrintTotalCorrected |
| src/org/digitalmodular/imageutilities/resize/ResizerUtilities.java:94-99 | SAME_AREA scales each side by the area ratio `vArea / iArea`, so the area of the result is the target's area times that ratio again | a 10 x 10 image with a 20 x 20 target: the result is 40 x 40, area 1600 where the target's is 400 | each side scaled by the square root of the area ratio, so that the area is the target's up to rounding, as SAME_DIAGONAL and SAME_CIRCUMFERENCE keep their measures | high, not executed | ResizerUtilities.SameAreaAsWrittenMissesArea | ResizerUtilities.SameAreaKeepsTargetArea |
