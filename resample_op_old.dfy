/**
 * `ResampleOpOld`, the original single-class resampler: the size checks of
 * `setDstSize` and `filter`, the sub-sampling tables `createSubSampling`
 * builds (mirrored edge positions, flagged cells, per-row normalisation), the
 * `toByte` clamp, the way worker threads share rows and columns, and the type
 * of the result image.
 */
module ResampleOpOld {
  import opened Java
  import opened Wrappers
  import Curves
  import Buffers
  import ImageUtilsOld

  // ------------------------------------------------------------------ sizes

  /** The check `setDstSize` makes: a destination without area is refused. */
  function CheckDstSize(width: int, height: int): (r: Outcome)
    ensures r == Pass <==> width >= 1 && height >= 1
    ensures r != Pass ==> r == Fail("IllegalArgumentException: dstSize has no area")
  {
    if width < 1 || height < 1 then Fail("IllegalArgumentException: dstSize has no area") else Pass
  }

  /** The first check `filter` makes: both destination sides must be at least 3. */
  function CheckFilterSize(width: int, height: int): (r: Outcome)
    ensures r == Pass <==> width >= 3 && height >= 3
    ensures r != Pass ==> r == Fail("RuntimeException: target size must be at least 3x3")
  {
    if width < 3 || height < 3 then Fail("RuntimeException: target size must be at least 3x3") else Pass
  }

  /**
   * What `filter` refuses before it resamples: a small destination, and then
   * (once the tables are built) a thread count below one, for which the array
   * of `numberOfThreads - 1` helper threads has a negative size.
   */
  function StartFilter(width: int, height: int, numberOfThreads: int): (r: Outcome)
    ensures r == Pass <==> width >= 3 && height >= 3 && numberOfThreads >= 1
    ensures CheckFilterSize(width, height) != Pass ==> r == CheckFilterSize(width, height)
    ensures CheckFilterSize(width, height) == Pass && numberOfThreads < 1 ==> r == Fail("NegativeArraySizeException")
  {
    var sizeCheck := CheckFilterSize(width, height);
    if sizeCheck != Pass then sizeCheck
    else if numberOfThreads - 1 < 0 then Fail("NegativeArraySizeException")
    else Pass
  }

  /**
   * `filter` demands more than `setDstSize`: every size `setDstSize` refuses is
   * refused by `filter` too, and the sizes 1 and 2 pass the first and fail the
   * second.
   */
  lemma FilterIsStricterThanSetDstSize(width: int, height: int)
    ensures CheckFilterSize(width, height) == Pass ==> CheckDstSize(width, height) == Pass
    ensures CheckDstSize(width, height) == Pass && CheckFilterSize(width, height) != Pass <==>
      1 <= width && 1 <= height && (width < 3 || height < 3)
  {
  }

  /** The resampler's settings. */
  class ResampleOp {
    var dstWidth: int
    var dstHeight: int
    var numberOfThreads: int
    var filter: Curves.Curve

    /** A fresh resampler: no size yet, one thread per processor, Lanczos3. */
    constructor(availableProcessors: int)
      ensures dstWidth == 0 && dstHeight == 0
      ensures numberOfThreads == availableProcessors && filter == Curves.Lanczos3
    {
      dstWidth := 0;
      dstHeight := 0;
      numberOfThreads := availableProcessors;
      filter := Curves.Lanczos3;
    }

    /**
     * `setDstSize` stores the size before it checks it, so a refused size is
     * still the one `filter` later sees.
     */
    method SetDstSize(width: int, height: int) returns (r: Outcome)
      modifies this
      ensures dstWidth == width && dstHeight == height
      ensures numberOfThreads == old(numberOfThreads) && filter == old(filter)
      ensures r == CheckDstSize(width, height)
    {
      dstWidth := width;
      dstHeight := height;
      if dstWidth < 1 || dstHeight < 1 {
        return Fail("IllegalArgumentException: dstSize has no area");
      }
      return Pass;
    }

    method SetNumberOfThreads(n: int)
      modifies this
      ensures numberOfThreads == n
      ensures dstWidth == old(dstWidth) && dstHeight == old(dstHeight) && filter == old(filter)
    {
      numberOfThreads := n;
    }

    method SetFilter(c: Curves.Curve)
      modifies this
      ensures filter == c
      ensures dstWidth == old(dstWidth) && dstHeight == old(dstHeight) && numberOfThreads == old(numberOfThreads)
    {
      filter := c;
    }

    /** The checks of `filter`, on the stored settings. */
    method Start() returns (r: Outcome)
      ensures r == StartFilter(dstWidth, dstHeight, numberOfThreads)
      ensures r == Pass ==> CheckDstSize(dstWidth, dstHeight) == Pass
    {
      if dstWidth < 3 || dstHeight < 3 {
        return Fail("RuntimeException: target size must be at least 3x3");
      }
      if numberOfThreads - 1 < 0 {
        return Fail("NegativeArraySizeException");
      }
      return Pass;
    }
  }

  // ---------------------------------------------------------- edge handling

  /** The source position a tap at `j` reads: reflected at both edges. */
  function Mirror(j: int, srcSize: int): (p: int)
    ensures 0 <= j < srcSize ==> p == j
    ensures -srcSize < j < 2 * srcSize ==> 0 <= p < srcSize
  {
    if j < 0 then -j
    else if j >= srcSize then srcSize - j + srcSize - 1
    else j
  }

  /**
   * Inside the source a position reads itself; before it the reflection is
   * about pixel 0 (which is not repeated), after it about the edge between the
   * last pixel and its mirror image (which is repeated); a mirrored position is
   * a real pixel exactly when `j` lies within one source length of the source.
   */
  lemma MirrorReflectsAtEdges(j: int, srcSize: int)
    requires srcSize >= 1
    ensures 0 <= j < srcSize ==> Mirror(j, srcSize) == j
    ensures j < 0 ==> Mirror(j, srcSize) + j == 0
    ensures j >= srcSize ==> Mirror(j, srcSize) + j == 2 * srcSize - 1
    ensures 0 <= Mirror(j, srcSize) < srcSize <==> -srcSize < j < 2 * srcSize
    ensures Mirror(-1, srcSize) == 1 && Mirror(srcSize, srcSize) == srcSize - 1
  {
  }

  // ----------------------------------------------------- sub-sampling rows

  /** One dimension to resample: the curve (with its foreign `sin`) and the two sizes. */
  datatype Axis = Axis(curve: Curves.Curve, sin: real -> real, srcSize: int, dstSize: int) {
    predicate Valid() { srcSize >= 1 && dstSize >= 1 }
  }

  /**
   * The per-axis quantities: the scale, the half-width of the window in source
   * pixels, the factor that squeezes a widened window back onto the curve, and
   * the offset of pixel centres.
   */
  datatype Geometry = Geometry(scale: real, width: real, normFactor: real, centerOffset: real) {
    predicate Downsampling() { scale < 1.0 }
  }

  /**
   * The scale maps the source length onto the destination length; reducing
   * widens the curve's radius by `1/scale` and squeezes the rounded-up window
   * back onto the curve, enlarging keeps the radius; pixel centres sit half a
   * destination pixel in.
   */
  function MakeGeometry(a: Axis): (g: Geometry)
    requires a.Valid()
    ensures g.scale > 0.0 && g.scale * a.srcSize as real == a.dstSize as real
    ensures g.Downsampling() <==> a.dstSize < a.srcSize
    ensures g.width >= Curves.Radius(a.curve) > 0.0
    ensures !g.Downsampling() ==> g.width == Curves.Radius(a.curve) && g.normFactor == 1.0
    ensures 0.0 < g.normFactor <= 1.0
  {
    var radius := Curves.Radius(a.curve);
    if a.dstSize < a.srcSize then ReducingGeometry(radius, a.dstSize, a.srcSize)
    else EnlargingGeometry(radius, a.dstSize, a.srcSize)
  }

  /**
   * The window of `MakeGeometry` in numbers: reducing widens the radius by
   * exactly `1/scale` and the norm factor squeezes the rounded-up window back
   * onto the radius; the first pixel centre sits half a destination pixel in.
   */
  lemma GeometryWindow(a: Axis)
    requires a.Valid()
    ensures var g := MakeGeometry(a);
      (g.Downsampling() ==> g.width * g.scale == Curves.Radius(a.curve) &&
                            g.normFactor * Ceil(g.width) as real == Curves.Radius(a.curve)) &&
      g.centerOffset * g.scale == 0.5
  {
  }

  /** Reducing: the window is the radius widened by `1/scale`, squeezed back by the norm factor. */
  function ReducingGeometry(radius: real, dst: int, src: int): (g: Geometry)
    requires radius > 0.0 && 0 < dst < src
    ensures g.scale * src as real == dst as real && 0.0 < g.scale < 1.0
    ensures g.width * g.scale == radius && g.width >= radius
    ensures g.normFactor * Ceil(g.width) as real == radius && 0.0 < g.normFactor <= 1.0
    ensures g.centerOffset * g.scale == 0.5
  {
    var scale := dst as real / src as real;
    QuotientTimesDivisor(dst as real, src as real);
    var width := radius / scale;
    WidenedRadius(radius, scale);
    QuotientTimesDivisor(0.5, scale);
    NormFactorBounds(radius, Ceil(width) as real);
    Geometry(scale, width, 1.0 / (Ceil(width) as real / radius), 0.5 / scale)
  }

  /** Enlarging: the window is the radius itself and needs no squeezing. */
  function EnlargingGeometry(radius: real, dst: int, src: int): (g: Geometry)
    requires radius > 0.0 && 0 < src <= dst
    ensures g.scale * src as real == dst as real && g.scale >= 1.0
    ensures g.width == radius && g.normFactor == 1.0
    ensures g.centerOffset * g.scale == 0.5
  {
    var scale := dst as real / src as real;
    QuotientTimesDivisor(dst as real, src as real);
    QuotientTimesDivisor(0.5, scale);
    Geometry(scale, radius, 1.0, 0.5 / scale)
  }

  lemma QuotientTimesDivisor(x: real, y: real)
    requires y > 0.0
    ensures x / y * y == x && (x > 0.0 ==> x / y > 0.0)
    ensures x / y < 1.0 <==> x < y
  {
    if x / y < 1.0 {
      MulRealMonotone(x / y, 1.0, y);
    } else {
      MulRealMonotone(1.0, x / y, y);
    }
  }

  /** Dividing a radius by a scale below 1 widens it, and scaling back restores it. */
  lemma WidenedRadius(radius: real, scale: real)
    requires radius > 0.0 && 0.0 < scale < 1.0
    ensures radius / scale * scale == radius && radius / scale >= radius
  {
    var w := radius / scale;
    assert w * scale == radius;
    MulRealMonotone(scale, 1.0, w);
  }

  /** `1 / (ceil / radius)` squeezes a window of `ceil` back onto the radius. */
  lemma NormFactorBounds(radius: real, ceil: real)
    requires 0.0 < radius <= ceil
    ensures 1.0 / (ceil / radius) * ceil == radius
    ensures 0.0 < 1.0 / (ceil / radius) <= 1.0
  {
    var n := 1.0 / (ceil / radius);
    assert n == radius / ceil;
    MulRealMonotone(radius, ceil, 1.0 / ceil);
  }

  /** The source position destination pixel `i` is centred on. */
  function Center(a: Axis, i: int): real
    requires a.Valid()
  {
    var g := MakeGeometry(a);
    i as real / g.scale + g.centerOffset
  }

  function Left(a: Axis, i: int): int
    requires a.Valid()
  {
    Floor(Center(a, i) - MakeGeometry(a).width)
  }

  function Right(a: Axis, i: int): int
    requires a.Valid()
  {
    Ceil(Center(a, i) + MakeGeometry(a).width)
  }

  /** The curve's weight for source position `j` in row `i`. */
  function TapWeight(a: Axis, i: int, j: int): real
    requires a.Valid()
  {
    var g := MakeGeometry(a);
    var d := Center(a, i) - j as real;
    if g.Downsampling() then Curves.Apply(a.curve, a.sin, d * g.normFactor)
    else Curves.Apply(a.curve, a.sin, d)
  }

  /** Row `i`'s weights, as a function of the source position. */
  function RowWeight(a: Axis, i: int): int -> real
    requires a.Valid()
  {
    j => TapWeight(a, i, j)
  }

  /** A table cell: the source pixel to read and its weight. */
  datatype Tap = Tap(pixel: int, weight: real)

  /**
   * The cell position `j` contributes to a row with weights `weight`: none
   * for a zero weight, and a flagged cell (weight 0) when the mirrored
   * position is outside the source.
   */
  function TapAt(weight: int -> real, srcSize: int, j: int): seq<Tap>
  {
    var w := weight(j);
    if w == 0.0 then []
    else
      var n := Mirror(j, srcSize);
      [Tap(n, if n < 0 || n >= srcSize then 0.0 else w)]
  }

  /** The cells positions `lo .. hi - 1` contribute, in order. */
  function Taps(weight: int -> real, srcSize: int, lo: int, hi: int): seq<Tap>
    decreases hi - lo
  {
    if hi <= lo then [] else Taps(weight, srcSize, lo, hi - 1) + TapAt(weight, srcSize, hi - 1)
  }

  lemma TapsStep(weight: int -> real, srcSize: int, lo: int, hi: int)
    requires lo <= hi
    ensures Taps(weight, srcSize, lo, hi + 1) == Taps(weight, srcSize, lo, hi) + TapAt(weight, srcSize, hi)
  {
  }

  /** The cells of row `i`: every position of its window, left to right. */
  function RowTaps(a: Axis, i: int): seq<Tap>
    requires a.Valid()
  {
    Taps(RowWeight(a, i), a.srcSize, Left(a, i), Right(a, i) + 1)
  }

  /**
   * A position counts only when its weight is nonzero: at most one cell per
   * position, none when every weight vanishes, one each when none does.
   */
  lemma {:induction false} TapsCountNonzeroWeights(weight: int -> real, srcSize: int, lo: int, hi: int)
    requires lo <= hi
    ensures |Taps(weight, srcSize, lo, hi)| <= hi - lo
    ensures (forall j :: lo <= j < hi ==> weight(j) == 0.0) ==> Taps(weight, srcSize, lo, hi) == []
    ensures (forall j :: lo <= j < hi ==> weight(j) != 0.0) ==> |Taps(weight, srcSize, lo, hi)| == hi - lo
    decreases hi - lo
  {
    if lo < hi {
      TapsCountNonzeroWeights(weight, srcSize, lo, hi - 1);
    }
  }

  /** A cell has weight zero exactly when it reads outside the source. */
  lemma {:induction false} FlaggedCellsReadOutside(weight: int -> real, srcSize: int, lo: int, hi: int)
    ensures forall k :: 0 <= k < |Taps(weight, srcSize, lo, hi)| ==>
      (Taps(weight, srcSize, lo, hi)[k].weight == 0.0 <==> !(0 <= Taps(weight, srcSize, lo, hi)[k].pixel < srcSize))
    decreases hi - lo
  {
    if lo < hi {
      FlaggedCellsReadOutside(weight, srcSize, lo, hi - 1);
    }
  }

  // ------------------------------------------------------ table capacity

  /** The row length `createSubSampling` allocates. */
  function AsWrittenNumContributors(a: Axis): (nc: int)
    requires a.Valid()
    ensures CorrectedNumContributors(a) - 2 <= nc <= CorrectedNumContributors(a)
  {
    var g := MakeGeometry(a);
    if g.Downsampling() then Trunc(g.width * 2.0 + 2.0)
    else Trunc(Curves.Radius(a.curve) * 2.0 + 1.0)
  }

  /** A row length that holds every window: its width rounded up, plus two. */
  function CorrectedNumContributors(a: Axis): (nc: int)
    requires a.Valid()
    ensures nc >= 3
  {
    Ceil(2.0 * MakeGeometry(a).width) + 2
  }

  /** Every window, and so every row of cells, fits the corrected row length. */
  lemma RowFitsCorrected(a: Axis, i: int)
    requires a.Valid()
    ensures Left(a, i) <= Right(a, i)
    ensures |RowTaps(a, i)| <= Right(a, i) - Left(a, i) + 1 <= CorrectedNumContributors(a)
  {
    var w := MakeGeometry(a).width;
    var c := Center(a, i);
    assert Left(a, i) as real > c - w - 1.0;
    assert (Right(a, i) as real) < c + w + 1.0;
    assert (Ceil(2.0 * w) as real) >= 2.0 * w;
    TapsCountNonzeroWeights(RowWeight(a, i), a.srcSize, Left(a, i), Right(a, i) + 1);
  }

  /**
   * The allocated row length is too short for the Box curve: enlarging 2
   * source pixels to 4 gives rows of 2 cells, but rows 0 and 3 have 3 cells
   * each, so row 0 overwrites the first cell of row 1 and row 3 writes one past
   * the end of the table.
   */
  lemma AsWrittenBoxEnlargementOverflows(sin: real -> real)
    ensures var a := Axis(Curves.Box, sin, 2, 4);
      var nc := AsWrittenNumContributors(a);
      nc == 2 && |RowTaps(a, 0)| == 3 && |RowTaps(a, 3)| == 3 &&
      3 * nc + |RowTaps(a, 3)| - 1 == 4 * nc && 0 * nc + |RowTaps(a, 0)| - 1 == 1 * nc
  {
    var a := Axis(Curves.Box, sin, 2, 4);
    var g := MakeGeometry(a);
    assert g.scale == 2.0 && g.width == 0.5 && g.centerOffset == 0.25;
    var w3 := RowWeight(a, 3);
    assert Center(a, 3) == 1.75 && Left(a, 3) == 1 && Right(a, 3) == 3;
    assert w3(1) == 1.0 && w3(2) == 1.0 && w3(3) == 1.0;
    assert |Taps(w3, 2, 1, 2)| == 1;
    assert |Taps(w3, 2, 1, 3)| == 2;
    var w0 := RowWeight(a, 0);
    assert Center(a, 0) == 0.25 && Left(a, 0) == -1 && Right(a, 0) == 1;
    assert w0(-1) == 1.0 && w0(0) == 1.0 && w0(1) == 1.0;
    assert |Taps(w0, 2, -1, 0)| == 1;
    assert |Taps(w0, 2, -1, 1)| == 2;
  }
  // --------------------------------------------------------- normalisation

  function Pixels(ts: seq<Tap>): (ps: seq<int>)
    ensures |ps| == |ts| && forall k :: 0 <= k < |ts| ==> ps[k] == ts[k].pixel
  {
    seq(|ts|, k requires 0 <= k < |ts| => ts[k].pixel)
  }

  function Weights(ts: seq<Tap>): (ws: seq<real>)
    ensures |ws| == |ts| && forall k :: 0 <= k < |ts| ==> ws[k] == ts[k].weight
  {
    seq(|ts|, k requires 0 <= k < |ts| => ts[k].weight)
  }

  /** The running total the row loop accumulates, first weight first. */
  function WeightSum(ws: seq<real>): real
  {
    if |ws| == 0 then 0.0 else WeightSum(ws[..|ws| - 1]) + ws[|ws| - 1]
  }

  lemma WeightSumGrows(ws: seq<real>, k: int)
    requires 0 <= k < |ws|
    ensures WeightSum(ws[..k + 1]) == WeightSum(ws[..k]) + ws[k]
  {
    assert ws[..k + 1][..k] == ws[..k];
  }

  function DivideAll(ws: seq<real>, c: real): (r: seq<real>)
    requires c != 0.0
    ensures |r| == |ws| && forall k :: 0 <= k < |ws| ==> r[k] == ws[k] / c
  {
    seq(|ws|, k requires 0 <= k < |ws| => ws[k] / c)
  }

  /** A row's weights divided by their total, unless the total is zero. */
  function Normalized(ws: seq<real>): (r: seq<real>)
    ensures |r| == |ws|
  {
    var tot := WeightSum(ws);
    if tot != 0.0 then DivideAll(ws, tot) else ws
  }

  lemma {:induction false} SumOfQuotients(ws: seq<real>, c: real)
    requires c != 0.0
    ensures WeightSum(DivideAll(ws, c)) == WeightSum(ws) / c
  {
    if |ws| > 0 {
      var n := |ws| - 1;
      assert DivideAll(ws, c)[..n] == DivideAll(ws[..n], c);
      SumOfQuotients(ws[..n], c);
    }
  }

  /**
   * Normalising makes a row's weights sum to one, leaves a zero total alone,
   * and keeps every flagged (zero) cell flagged and every other cell nonzero.
   */
  lemma NormalizedSumsToOne(ws: seq<real>)
    ensures WeightSum(ws) != 0.0 ==> WeightSum(Normalized(ws)) == 1.0
    ensures WeightSum(ws) == 0.0 ==> Normalized(ws) == ws
    ensures forall k :: 0 <= k < |ws| ==> (Normalized(ws)[k] == 0.0 <==> ws[k] == 0.0)
  {
    var tot := WeightSum(ws);
    if tot != 0.0 {
      SumOfQuotients(ws, tot);
      QuotientFacts(tot, tot);
      forall k | 0 <= k < |ws|
        ensures Normalized(ws)[k] == 0.0 <==> ws[k] == 0.0
      {
        QuotientFacts(ws[k], tot);
      }
    }
  }

  /** Dividing by a nonzero total: zero stays zero, nothing else becomes zero, and the total becomes one. */
  lemma QuotientFacts(x: real, c: real)
    requires c != 0.0
    ensures x / c == 0.0 <==> x == 0.0
    ensures x == c ==> x / c == 1.0
  {
    assert (x / c) * c == x;
  }

  // -------------------------------------------------------------- tables

  function Fill<T>(n: nat, v: T): (r: seq<T>)
    ensures |r| == n && forall k :: 0 <= k < n ==> r[k] == v
  {
    seq(n, _ => v)
  }

  /** Every row has at most `nc` entries. */
  predicate BlocksFit<T>(blocks: seq<seq<T>>, nc: int)
  {
    forall k :: 0 <= k < |blocks| ==> |blocks[k]| <= nc
  }

  /**
   * A flat table of rows of length `nc`, as `createSubSampling` lays it out:
   * row `k` starts at `k * nc` and holds `blocks[k]`, followed by the zeros
   * the array was created with.
   */
  function Table<T>(blocks: seq<seq<T>>, nc: int, zero: T): (t: seq<T>)
    requires nc >= 0 && BlocksFit(blocks, nc)
    ensures |t| == Buffers.Times(|blocks|, nc)
  {
    if |blocks| == 0 then []
    else
      var last := blocks[|blocks| - 1];
      Table(blocks[..|blocks| - 1], nc, zero) + (last + Fill(nc - |last|, zero))
  }

  /** The pixels of each row's cells. */
  function PixelRows(rows: seq<seq<Tap>>): (b: seq<seq<int>>)
    ensures |b| == |rows| && forall k :: 0 <= k < |rows| ==> b[k] == Pixels(rows[k])
  {
    seq(|rows|, k requires 0 <= k < |rows| => Pixels(rows[k]))
  }

  /** The normalised weights of each row's cells. */
  function WeightRows(rows: seq<seq<Tap>>): (b: seq<seq<real>>)
    ensures |b| == |rows| && forall k :: 0 <= k < |rows| ==> b[k] == Normalized(Weights(rows[k]))
  {
    seq(|rows|, k requires 0 <= k < |rows| => Normalized(Weights(rows[k])))
  }

  function Counts(rows: seq<seq<Tap>>): (c: seq<int>)
    ensures |c| == |rows| && forall i :: 0 <= i < |rows| ==> c[i] == |rows[i]|
  {
    seq(|rows|, i requires 0 <= i < |rows| => |rows[i]|)
  }

  /** The cells of the first `n` rows of an axis; each fits the corrected row length. */
  function Rows(a: Axis, n: nat): (rows: seq<seq<Tap>>)
    requires a.Valid()
    ensures |rows| == n && BlocksFit(rows, CorrectedNumContributors(a))
  {
    if n == 0 then []
    else
      RowFitsCorrected(a, n - 1);
      Rows(a, n - 1) + [RowTaps(a, n - 1)]
  }

  lemma {:induction false} RowsAreRowTaps(a: Axis, n: nat, i: nat)
    requires a.Valid() && i < n
    ensures Rows(a, n)[i] == RowTaps(a, i)
  {
    if i < n - 1 {
      RowsAreRowTaps(a, n - 1, i);
    }
  }

  /** The pixel table of an axis. */
  function PixelTable(a: Axis): seq<int>
    requires a.Valid()
  {
    Table(PixelRows(Rows(a, a.dstSize)), CorrectedNumContributors(a), 0)
  }

  /** The weight table of an axis. */
  function WeightTable(a: Axis): seq<real>
    requires a.Valid()
  {
    Table(WeightRows(Rows(a, a.dstSize)), CorrectedNumContributors(a), 0.0)
  }

  lemma {:induction false} TimesGrows(i: nat, n: nat, m: int)
    requires i <= n && m >= 0
    ensures Buffers.Times(i, m) <= Buffers.Times(n, m)
    decreases n - i
  {
    if i < n {
      TimesGrows(i, n - 1, m);
    }
  }

  /**
   * Cell `k` of row `r` of a table, at `r * nc + k`, holds the row's `k`-th
   * entry, or a zero past the row's end; in the sub-sampling tables the first
   * `arrN[r]` cells of row `r` are its taps, with their weights normalised.
   */
  lemma {:induction false} TableCell<T>(blocks: seq<seq<T>>, nc: int, zero: T, r: nat, k: nat)
    requires nc >= 0 && BlocksFit(blocks, nc) && r < |blocks| && k < nc
    ensures Buffers.Times(r, nc) + k < |Table(blocks, nc, zero)|
    ensures Table(blocks, nc, zero)[Buffers.Times(r, nc) + k] == if k < |blocks[r]| then blocks[r][k] else zero
    decreases |blocks|
  {
    var n := |blocks|;
    var front := blocks[..n - 1];
    var row := blocks[n - 1] + Fill(nc - |blocks[n - 1]|, zero);
    TableSnoc(blocks, n - 1, nc, zero);
    assert blocks[..n] == blocks;
    var t := Table(front, nc, zero);
    var cell := Buffers.Times(r, nc) + k;
    assert Table(blocks, nc, zero) == t + row;
    if r < n - 1 {
      TableCell(front, nc, zero, r, k);
      assert front[r] == blocks[r];
      assert cell < |t| && (t + row)[cell] == t[cell];
    } else {
      assert cell == |t| + k && (t + row)[cell] == row[k];
    }
  }


  /** The tables `createSubSampling` returns (Java's `SubSamplingData`). */
  datatype SubSamplingData = SubSamplingData(arrN: array<int>, arrPixel: array<int>, arrWeight: array<real>, numContributors: int)

  /**
   * A table after `i` rows have been written: the finished rows in front,
   * zeros behind.
   */
  ghost predicate TableBuilt<T>(blocks: seq<seq<T>>, i: int, nc: int, zero: T, s: seq<T>)
  {
    0 <= i <= |blocks| && nc >= 0 && BlocksFit(blocks, nc) &&
    |s| == Buffers.Times(|blocks|, nc) && Buffers.Times(i, nc) <= |s| &&
    s[..Buffers.Times(i, nc)] == Table(blocks[..i], nc, zero) &&
    (forall p :: Buffers.Times(i, nc) <= p < |s| ==> s[p] == zero)
  }

  /** `after` is `before` with `block` written from position `start` on. */
  ghost predicate Overwritten<T>(before: seq<T>, after: seq<T>, start: int, block: seq<T>)
  {
    |after| == |before| && 0 <= start && start + |block| <= |before| &&
    forall p :: 0 <= p < |before| ==> after[p] == if start <= p < start + |block| then block[p - start] else before[p]
  }

  /** Overwriting the same cells twice leaves the second block. */
  lemma OverwrittenTwice<T>(s0: seq<T>, s1: seq<T>, s2: seq<T>, start: int, b1: seq<T>, b2: seq<T>)
    requires Overwritten(s0, s1, start, b1) && Overwritten(s1, s2, start, b2) && |b1| == |b2|
    ensures Overwritten(s0, s2, start, b2)
  {
  }

  /** `arrN` after `i` rows: the finished rows' counts, then zeros. */
  ghost predicate CountsBuilt(rows: seq<seq<Tap>>, i: int, counts: seq<int>)
  {
    0 <= i <= |rows| == |counts| && counts[..i] == Counts(rows[..i]) &&
    forall r :: i <= r < |rows| ==> counts[r] == 0
  }

  lemma CountsGrow(rows: seq<seq<Tap>>, i: int, counts: seq<int>, counts': seq<int>)
    requires CountsBuilt(rows, i, counts) && i < |rows| && counts' == counts[i := |rows[i]|]
    ensures CountsBuilt(rows, i + 1, counts')
  {
    assert rows[..i + 1] == rows[..i] + [rows[i]];
    assert counts'[..i + 1] == counts[..i] + [|rows[i]|];
  }

  /** The three arrays after `i` rows. */
  ghost predicate Built(rows: seq<seq<Tap>>, i: int, nc: int, counts: seq<int>, pixels: seq<int>, weights: seq<real>)
  {
    CountsBuilt(rows, i, counts) &&
    TableBuilt(PixelRows(rows), i, nc, 0, pixels) &&
    TableBuilt(WeightRows(rows), i, nc, 0.0, weights)
  }

  /** Writing row `i`'s cells, then normalising its weights, finishes one more row. */
  lemma RowWritten(rows: seq<seq<Tap>>, i: int, nc: int,
                   counts: seq<int>, pixels: seq<int>, weights: seq<real>,
                   counts': seq<int>, pixels': seq<int>, weights': seq<real>)
    requires Built(rows, i, nc, counts, pixels, weights) && i < |rows|
    requires counts' == counts[i := |rows[i]|]
    requires Overwritten(pixels, pixels', Buffers.Times(i, nc), Pixels(rows[i]))
    requires Overwritten(weights, weights', Buffers.Times(i, nc), Normalized(Weights(rows[i])))
    ensures Built(rows, i + 1, nc, counts', pixels', weights')
  {
    TableGrows(PixelRows(rows), i, nc, 0, pixels, pixels');
    TableGrows(WeightRows(rows), i, nc, 0.0, weights, weights');
    CountsGrow(rows, i, counts, counts');
  }

  /** Before row `i` is written, its count is still 0 and its cells fit in the tables. */
  lemma BuiltRoom(rows: seq<seq<Tap>>, i: int, nc: int, counts: seq<int>, pixels: seq<int>, weights: seq<real>)
    requires Built(rows, i, nc, counts, pixels, weights) && i < |rows|
    ensures counts[i] == 0 && |pixels| == |weights|
    ensures Buffers.Times(i, nc) + nc <= |pixels|
  {
    TimesGrows(i + 1, |rows|, nc);
  }

  /** Freshly zeroed arrays hold no rows yet. */
  lemma BuiltAtStart(rows: seq<seq<Tap>>, nc: int, counts: seq<int>, pixels: seq<int>, weights: seq<real>)
    requires nc >= 0 && BlocksFit(rows, nc) && |counts| == |rows|
    requires |pixels| == |weights| == Buffers.Times(|rows|, nc)
    requires forall r :: 0 <= r < |counts| ==> counts[r] == 0
    requires forall p :: 0 <= p < |pixels| ==> pixels[p] == 0
    requires forall p :: 0 <= p < |weights| ==> weights[p] == 0.0
    ensures Built(rows, 0, nc, counts, pixels, weights)
  {
    assert BlocksFit(PixelRows(rows), nc) && BlocksFit(WeightRows(rows), nc);
  }

  /** Once every row is written, the arrays are the tables. */
  lemma BuiltAtEnd(rows: seq<seq<Tap>>, nc: int, counts: seq<int>, pixels: seq<int>, weights: seq<real>)
    requires Built(rows, |rows|, nc, counts, pixels, weights)
    ensures counts == Counts(rows)
    ensures pixels == Table(PixelRows(rows), nc, 0) && weights == Table(WeightRows(rows), nc, 0.0)
  {
    assert rows[..|rows|] == rows;
    assert counts[..|rows|] == counts;
    TableFinished(PixelRows(rows), nc, 0, pixels);
    TableFinished(WeightRows(rows), nc, 0.0, weights);
  }

  /** Once every row is written, the array is the table. */
  lemma TableFinished<T>(blocks: seq<seq<T>>, nc: int, zero: T, s: seq<T>)
    requires TableBuilt(blocks, |blocks|, nc, zero, s)
    ensures s == Table(blocks, nc, zero)
  {
    assert blocks[..|blocks|] == blocks;
    assert s[..|s|] == s;
  }

  /** Writing row `i` into the zeros behind the finished rows finishes one more row. */
  lemma TableGrows<T>(blocks: seq<seq<T>>, i: int, nc: int, zero: T, s: seq<T>, s': seq<T>)
    requires TableBuilt(blocks, i, nc, zero, s) && i < |blocks|
    requires Overwritten(s, s', Buffers.Times(i, nc), blocks[i])
    ensures TableBuilt(blocks, i + 1, nc, zero, s')
  {
    TimesGrows(i + 1, |blocks|, nc);
    var start, end := Buffers.Times(i, nc), Buffers.Times(i + 1, nc);
    var row := blocks[i] + Fill(nc - |blocks[i]|, zero);
    TableSnoc(blocks, i, nc, zero);
    KeptBefore(s, s', start, blocks[i]);
    WrittenIntoZeros(s, s', start, blocks[i], nc, zero);
    assert s'[..end] == s'[..start] + s'[start..end];
  }

  /** The table of one more row is the table so far with that row, padded, behind it. */
  lemma TableSnoc<T>(blocks: seq<seq<T>>, i: int, nc: int, zero: T)
    requires nc >= 0 && BlocksFit(blocks, nc) && 0 <= i < |blocks|
    ensures BlocksFit(blocks[..i], nc) && BlocksFit(blocks[..i + 1], nc)
    ensures Table(blocks[..i + 1], nc, zero) == Table(blocks[..i], nc, zero) + (blocks[i] + Fill(nc - |blocks[i]|, zero))
  {
    assert blocks[..i + 1][..i] == blocks[..i];
  }

  /** Cells in front of an overwritten block keep their values. */
  lemma KeptBefore<T>(s: seq<T>, s': seq<T>, start: int, block: seq<T>)
    requires Overwritten(s, s', start, block)
    ensures s'[..start] == s[..start]
  {
  }

  /** A block written into zeros, up to `nc` cells: the block, then zeros. */
  lemma WrittenIntoZeros<T>(s: seq<T>, s': seq<T>, start: int, block: seq<T>, nc: int, zero: T)
    requires Overwritten(s, s', start, block) && |block| <= nc && start + nc <= |s|
    requires forall p :: start <= p < |s| ==> s[p] == zero
    ensures s'[start..start + nc] == block + Fill(nc - |block|, zero)
    ensures forall p :: start + nc <= p < |s'| ==> s'[p] == zero
  {
  }

  /**
   * `createSubSampling` with the corrected row length: row `i` of the tables
   * holds the cells of its window, left to right, with weights normalised;
   * `arrN[i]` counts them.
   */
  method CreateSubSampling(a: Axis) returns (d: SubSamplingData)
    requires a.Valid()
    ensures fresh(d.arrN) && fresh(d.arrPixel) && fresh(d.arrWeight)
    ensures d.numContributors == CorrectedNumContributors(a)
    ensures d.arrN[..] == Counts(Rows(a, a.dstSize))
    ensures d.arrPixel[..] == PixelTable(a)
    ensures d.arrWeight[..] == WeightTable(a)
  {
    var nc := CorrectedNumContributors(a);
    ghost var rows := Rows(a, a.dstSize);
    var size := a.dstSize * nc;
    Buffers.TimesIsProduct(a.dstSize, nc);
    var arrN := new int[a.dstSize](_ => 0);
    var arrPixel := new int[size](_ => 0);
    var arrWeight := new real[size](_ => 0.0);
    BuiltAtStart(rows, nc, arrN[..], arrPixel[..], arrWeight[..]);
    WriteRows(a, nc, arrN, arrPixel, arrWeight, rows);
    BuiltAtEnd(rows, nc, arrN[..], arrPixel[..], arrWeight[..]);
    d := SubSamplingData(arrN, arrPixel, arrWeight, nc);
  }

  /** The row loop: rows 0 to `dstSize - 1`, each written behind the previous ones. */
  method WriteRows(a: Axis, nc: int, arrN: array<int>, arrPixel: array<int>, arrWeight: array<real>,
                   ghost rows: seq<seq<Tap>>)
    requires a.Valid() && nc == CorrectedNumContributors(a) && rows == Rows(a, a.dstSize)
    requires arrN != arrPixel && arrN.Length == a.dstSize
    requires Built(rows, 0, nc, arrN[..], arrPixel[..], arrWeight[..])
    modifies arrN, arrPixel, arrWeight
    ensures Built(rows, |rows|, nc, arrN[..], arrPixel[..], arrWeight[..])
  {
    for i := 0 to a.dstSize
      invariant Built(rows, i, nc, arrN[..], arrPixel[..], arrWeight[..])
    {
      var subindex := i * nc;
      Buffers.TimesIsProduct(i, nc);
      var weight, left, right := RowWindow(a, i, rows);
      ghost var counts, pixels, weights := arrN[..], arrPixel[..], arrWeight[..];
      BuiltRoom(rows, i, nc, counts, pixels, weights);
      WriteRow(arrN, arrPixel, arrWeight, weight, a.srcSize, i, left, right, subindex, nc);
      RowWritten(rows, i, nc, counts, pixels, weights, arrN[..], arrPixel[..], arrWeight[..]);
    }
  }

  /**
   * The window of row `i`: its weights (the curve around the row's centre) and
   * the positions from `floor(center - width)` to `ceil(center + width)`.
   */
  method RowWindow(a: Axis, i: int, ghost rows: seq<seq<Tap>>) returns (weight: int -> real, left: int, right: int)
    requires a.Valid() && 0 <= i < a.dstSize && rows == Rows(a, a.dstSize)
    ensures left <= right + 1 && right - left + 1 <= CorrectedNumContributors(a)
    ensures rows[i] == Taps(weight, a.srcSize, left, right + 1)
  {
    weight := RowWeight(a, i);
    left := Left(a, i);
    right := Right(a, i);
    RowsAreRowTaps(a, a.dstSize, i);
    RowFitsCorrected(a, i);
  }

  /** The body of the row loop: row `i`'s cells written from `subindex` on, their weights normalised. */
  method WriteRow(arrN: array<int>, arrPixel: array<int>, arrWeight: array<real>,
                  weight: int -> real, srcSize: int, i: int, left: int, right: int, subindex: int, nc: int)
    requires arrN != arrPixel && left <= right + 1 && right - left + 1 <= nc
    requires 0 <= i < arrN.Length && arrN[i] == 0
    requires arrPixel.Length == arrWeight.Length && 0 <= subindex && subindex + nc <= arrPixel.Length
    modifies arrN, arrPixel, arrWeight
    ensures arrN[..] == old(arrN[..])[i := |Taps(weight, srcSize, left, right + 1)|]
    ensures Overwritten(old(arrPixel[..]), arrPixel[..], subindex, Pixels(Taps(weight, srcSize, left, right + 1)))
    ensures Overwritten(old(arrWeight[..]), arrWeight[..], subindex, Normalized(Weights(Taps(weight, srcSize, left, right + 1))))
  {
    ghost var weightsBefore := arrWeight[..];
    ghost var ts := Taps(weight, srcSize, left, right + 1);
    FillRow(arrN, arrPixel, arrWeight, weight, srcSize, i, left, right, subindex, nc);
    ghost var weightsFilled := arrWeight[..];
    NormalizeRow(arrWeight, subindex, arrN[i], Weights(ts));
    OverwrittenTwice(weightsBefore, weightsFilled, arrWeight[..], subindex, Weights(ts), Normalized(Weights(ts)));
  }

  /**
   * The window loop of one row: each position with a nonzero weight appends a
   * cell at `subindex + arrN[i]` and counts it.
   */
  method FillRow(arrN: array<int>, arrPixel: array<int>, arrWeight: array<real>, weight: int -> real, srcSize: int,
                 i: int, left: int, right: int, subindex: int, nc: int)
    requires arrN != arrPixel && left <= right + 1
    requires 0 <= i < arrN.Length && arrN[i] == 0
    requires arrPixel.Length == arrWeight.Length && 0 <= subindex && subindex + nc <= arrPixel.Length
    requires right - left + 1 <= nc
    modifies arrN, arrPixel, arrWeight
    ensures arrN[..] == old(arrN[..])[i := |Taps(weight, srcSize, left, right + 1)|]
    ensures arrN[i] <= right - left + 1
    ensures Overwritten(old(arrPixel[..]), arrPixel[..], subindex, Pixels(Taps(weight, srcSize, left, right + 1)))
    ensures Overwritten(old(arrWeight[..]), arrWeight[..], subindex, Weights(Taps(weight, srcSize, left, right + 1)))
    ensures arrWeight[subindex..subindex + arrN[i]] == Weights(Taps(weight, srcSize, left, right + 1))
  {
    ghost var pixels0, weights0 := arrPixel[..], arrWeight[..];
    ghost var ts: seq<Tap> := [];
    var j := left;
    while j <= right
      invariant left <= j <= right + 1
      invariant ts == Taps(weight, srcSize, left, j) && |ts| <= j - left
      invariant arrN[i] == |ts| && forall r :: 0 <= r < arrN.Length && r != i ==> arrN[r] == old(arrN[r])
      invariant Overwritten(pixels0, arrPixel[..], subindex, Pixels(ts))
      invariant Overwritten(weights0, arrWeight[..], subindex, Weights(ts))
      decreases right + 1 - j
    {
      ghost var ts0, step := ts, TapAt(weight, srcSize, j);
      var w := weight(j);
      if w != 0.0 {
        var n := Mirror(j, srcSize);
        if n < 0 || n >= srcSize {
          w := 0.0;
        }
        PutTap(arrN, arrPixel, arrWeight, i, subindex, n, w, pixels0, weights0, ts);
        ts := ts + [Tap(n, w)];
        assert step == [Tap(n, w)];
      } else {
        assert step == [] && ts0 + step == ts;
      }
      TapsStep(weight, srcSize, left, j);
      j := j + 1;
    }
    OverwrittenSlice(weights0, arrWeight[..], subindex, Weights(ts));
    assert arrN[..] == old(arrN[..])[i := |ts|];
  }

  /**
   * One cell of the window loop: `k = arrN[i]++`, then the pixel and the
   * weight stored at `subindex + k`.
   */
  method PutTap(arrN: array<int>, arrPixel: array<int>, arrWeight: array<real>, i: int, subindex: int,
                n: int, w: real, ghost pixels0: seq<int>, ghost weights0: seq<real>, ghost ts: seq<Tap>)
    requires arrN != arrPixel && 0 <= i < arrN.Length && arrN[i] == |ts|
    requires subindex + |ts| < arrPixel.Length == arrWeight.Length
    requires Overwritten(pixels0, arrPixel[..], subindex, Pixels(ts))
    requires Overwritten(weights0, arrWeight[..], subindex, Weights(ts))
    modifies arrN, arrPixel, arrWeight
    ensures arrN[i] == |ts| + 1 && forall r :: 0 <= r < arrN.Length && r != i ==> arrN[r] == old(arrN[r])
    ensures Overwritten(pixels0, arrPixel[..], subindex, Pixels(ts + [Tap(n, w)]))
    ensures Overwritten(weights0, arrWeight[..], subindex, Weights(ts + [Tap(n, w)]))
  {
    ghost var ps, ws := arrPixel[..], arrWeight[..];
    var k := arrN[i];
    arrN[i] := k + 1;
    arrPixel[subindex + k] := n;
    arrWeight[subindex + k] := w;
    assert arrPixel[..] == ps[subindex + k := n];
    assert arrWeight[..] == ws[subindex + k := w];
    PixelsAndWeightsGrow(ts, Tap(n, w));
    OverwrittenGrows(pixels0, ps, subindex, Pixels(ts), n);
    OverwrittenGrows(weights0, ws, subindex, Weights(ts), w);
  }

  lemma PixelsAndWeightsGrow(ts: seq<Tap>, t: Tap)
    ensures Pixels(ts + [t]) == Pixels(ts) + [t.pixel] && Weights(ts + [t]) == Weights(ts) + [t.weight]
  {
  }

  /** Writing the cell just behind an overwritten block extends the block by that cell. */
  lemma OverwrittenGrows<T>(before: seq<T>, s: seq<T>, start: int, block: seq<T>, v: T)
    requires Overwritten(before, s, start, block) && start + |block| < |s|
    ensures Overwritten(before, s[start + |block| := v], start, block + [v])
  {
  }

  /** The overwritten block can be read back as a slice. */
  lemma OverwrittenSlice<T>(before: seq<T>, s: seq<T>, start: int, block: seq<T>)
    requires Overwritten(before, s, start, block)
    ensures s[start..start + |block|] == block
  {
  }

  /** The row's weights summed, and divided by the sum unless it is zero. */
  method NormalizeRow(arrWeight: array<real>, subindex: int, max: int, ghost ws: seq<real>)
    requires 0 <= subindex && 0 <= max && subindex + max <= arrWeight.Length
    requires arrWeight[subindex..subindex + max] == ws
    modifies arrWeight
    ensures Overwritten(old(arrWeight[..]), arrWeight[..], subindex, Normalized(ws))
  {
    var tot := 0.0;
    for k := 0 to max
      invariant unchanged(arrWeight) && tot == WeightSum(ws[..k])
    {
      assert arrWeight[subindex + k] == ws[k];
      WeightSumGrows(ws, k);
      tot := tot + arrWeight[subindex + k];
    }
    assert ws[..max] == ws;
    if tot != 0.0 {
      for k := 0 to max
        invariant forall p :: 0 <= p < arrWeight.Length ==>
          arrWeight[p] == if subindex <= p < subindex + k then ws[p - subindex] / tot else old(arrWeight[p])
      {
        arrWeight[subindex + k] := arrWeight[subindex + k] / tot;
      }
    }
    assert Overwritten(old(arrWeight[..]), arrWeight[..], subindex, Normalized(ws));
  }

  // ------------------------------------------------------------- samples

  const MAX_CHANNEL_VALUE: int := 255

  /**
   * `toByte`: negative samples become 0, samples above 255 become 255, and the
   * rest are rounded half up; the value is the unsigned view of the byte.
   */
  function ToByteClamped(f: real): (b: int)
    ensures 0 <= b <= MAX_CHANNEL_VALUE
    ensures f < 0.0 ==> b == 0
    ensures f > MAX_CHANNEL_VALUE as real ==> b == MAX_CHANNEL_VALUE
    ensures 0.0 <= f <= MAX_CHANNEL_VALUE as real ==> b as real <= f + 0.5 < b as real + 1.0
  {
    if f < 0.0 then 0
    else if f > MAX_CHANNEL_VALUE as real then ToByte(MAX_CHANNEL_VALUE)
    else ToByte(Trunc(f + 0.5))
  }

  /** The clamp keeps the order of samples and returns every channel value unchanged. */
  lemma ToByteClampedIsMonotone(f: real, g: real, v: int)
    requires f <= g
    ensures ToByteClamped(f) <= ToByteClamped(g)
    ensures 0 <= v <= MAX_CHANNEL_VALUE ==> ToByteClamped(v as real) == v
  {
  }

  // --------------------------------------------------------------- workers

  /** The rows (or columns) a worker with index `start` of `delta` is meant to handle. */
  function Share(start: int, delta: int, n: int): set<int>
    requires delta >= 1
  {
    set x | 0 <= x < n && x % delta == start
  }

  lemma NoResidueBetween(x: int, y: int, delta: int, start: int)
    requires 0 <= start < delta && x % delta == start && x < y < x + delta
    ensures y % delta != start
  {
    var q := x / delta;
    var r := y - x;
    if start + r < delta {
      DivModOfMultiple(q, start + r, delta);
    } else {
      DivModOfMultiple(q + 1, start + r - delta, delta);
      assert y == (q + 1) * delta + (start + r - delta);
    }
  }

  /**
   * The loop `for (x = start; x < n; x += delta)` of each worker: it visits its
   * share in increasing order, each row once.
   */
  method VisitedRows(start: int, delta: int, n: int) returns (rows: seq<int>)
    requires 0 <= start < delta
    ensures forall x :: x in rows <==> x in Share(start, delta, n)
    ensures forall p, q :: 0 <= p < q < |rows| ==> rows[p] < rows[q]
  {
    rows := [];
    var x := start;
    ShareStart(start, delta, n);
    while x < n
      invariant start <= x && x % delta == start
      invariant forall y :: y in rows <==> 0 <= y < x && y < n && y % delta == start
      invariant forall p :: 0 <= p < |rows| ==> rows[p] < x
      invariant forall p, q :: 0 <= p < q < |rows| ==> rows[p] < rows[q]
      decreases n - x
    {
      ShareStep(rows, x, start, delta, n);
      rows := rows + [x];
      x := x + delta;
    }
  }

  /** No row below a worker's first row belongs to its share. */
  lemma ShareStart(start: int, delta: int, n: int)
    requires 0 <= start < delta
    ensures start % delta == start
    ensures forall y :: y in [] <==> 0 <= y < start && y < n && y % delta == start
  {
    DivModOfMultiple(0, start, delta);
    forall y | 0 <= y < start
      ensures y % delta != start
    {
      DivModOfMultiple(0, y, delta);
    }
  }

  /** One step of the worker loop keeps the loop's invariant. */
  lemma ShareStep(rows: seq<int>, x: int, start: int, delta: int, n: int)
    requires 0 <= start < delta && start <= x < n && x % delta == start
    requires forall y :: y in rows <==> 0 <= y < x && y < n && y % delta == start
    requires forall p :: 0 <= p < |rows| ==> rows[p] < x
    requires forall p, q :: 0 <= p < q < |rows| ==> rows[p] < rows[q]
    ensures (x + delta) % delta == start
    ensures forall y :: y in rows + [x] <==> 0 <= y < x + delta && y < n && y % delta == start
    ensures forall p :: 0 <= p < |rows + [x]| ==> (rows + [x])[p] < x + delta
    ensures forall p, q :: 0 <= p < q < |rows + [x]| ==> (rows + [x])[p] < (rows + [x])[q]
  {
    forall y | x < y < x + delta
      ensures y % delta != start
    {
      NoResidueBetween(x, y, delta, start);
    }
    DivModOfMultiple(x / delta + 1, start, delta);
    assert x + delta == (x / delta + 1) * delta + start;
  }

  /** Workers `0 .. delta - 1` share out every row, and no row twice. */
  lemma WorkersPartitionRows(delta: int, n: int)
    requires delta >= 1
    ensures forall x :: 0 <= x < n ==> x in Share(x % delta, delta, n) && 0 <= x % delta < delta
    ensures forall s, t, x :: 0 <= s < delta && 0 <= t < delta && x in Share(s, delta, n) && x in Share(t, delta, n) ==> s == t
  {
  }

  // ------------------------------------------------------------ result type

  /** `DataBuffer.TYPE_USHORT` and `BufferedImage.TYPE_USHORT_GRAY`. */
  const DATA_TYPE_USHORT: int := 1
  const TYPE_USHORT_GRAY: int := 11

  /** `getResultBufferedImageType`, from the channel count and the source's data type. */
  function ResultImageType(nrChannels: int, dataType: int): (t: int)
    ensures t == ImageUtilsOld.TYPE_3BYTE_BGR <==> nrChannels == 3
    ensures t == ImageUtilsOld.TYPE_4BYTE_ABGR <==> nrChannels == 4
    ensures t == TYPE_USHORT_GRAY <==> nrChannels != 3 && nrChannels != 4 && dataType == DATA_TYPE_USHORT
    ensures t == ImageUtilsOld.TYPE_BYTE_GRAY <==> nrChannels != 3 && nrChannels != 4 && dataType != DATA_TYPE_USHORT
  {
    if nrChannels == 3 then ImageUtilsOld.TYPE_3BYTE_BGR
    else if nrChannels == 4 then ImageUtilsOld.TYPE_4BYTE_ABGR
    else if dataType == DATA_TYPE_USHORT then TYPE_USHORT_GRAY
    else ImageUtilsOld.TYPE_BYTE_GRAY
  }

  /**
   * A one-channel 16-bit source gets a `TYPE_USHORT_GRAY` result, which
   * `setBGRPixels` packs three bytes to a word: the one byte per pixel the
   * resampler produces then fills too few words and is refused.
   */
  lemma AsWrittenUShortGrayResultIsRefused(bgr: seq<int>, w: int, h: int)
    requires w >= 1 && h >= 1 && IsInt(w * h) && |bgr| == w * h
    ensures ImageUtilsOld.SetBGRPixels(ResultImageType(1, DATA_TYPE_USHORT), bgr, w, h).Failure?
  {
    assert ToInt(w * h) == w * h;
    assert |ImageUtilsOld.PackedFor(TYPE_USHORT_GRAY, bgr)| == (w * h) / 3;
  }

  /** The result type for the byte samples the resampler produces. */
  function CorrectedResultImageType(nrChannels: int): (t: int)
    ensures t == ImageUtilsOld.TYPE_3BYTE_BGR <==> nrChannels == 3
    ensures t == ImageUtilsOld.TYPE_4BYTE_ABGR <==> nrChannels == 4
    ensures t == ImageUtilsOld.TYPE_BYTE_GRAY <==> nrChannels != 3 && nrChannels != 4
  {
    if nrChannels == 3 then ImageUtilsOld.TYPE_3BYTE_BGR
    else if nrChannels == 4 then ImageUtilsOld.TYPE_4BYTE_ABGR
    else ImageUtilsOld.TYPE_BYTE_GRAY
  }

  /** Every corrected result type takes the resampler's bytes as they are. */
  lemma CorrectedResultTakesBytes(nrChannels: int, bgr: seq<int>, w: int, h: int)
    ensures ImageUtilsOld.SetBGRPixels(CorrectedResultImageType(nrChannels), bgr, w, h) == Success(ImageUtilsOld.WriteBytes)
  {
  }
}
