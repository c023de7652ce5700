/**
 * The sampling tables of one axis: for every destination pixel, which source
 * pixels contribute and with which weight.  The tables come in two layouts with
 * the same contents: a flat one (`indicesX`, `weightsX`, `numSamples` entries per
 * destination pixel) for the horizontal pass and a row-per-pixel one
 * (`indicesY`, `weightsY`) for the vertical pass.
 *
 * Weights are real numbers: the rounding of the source's `float`/`double`
 * arithmetic is not modelled.
 */
module Sampling {
  import opened Java
  import opened Curves

  /** The arguments of one sampling-table computation. */
  datatype Axis = Axis(curve: Curve, sin: real -> real, srcSize: int, dstSize: int,
                       scale: real, offset: real, pixelStride: int)
  {
    /** A positive scale, a non-empty source and a non-negative destination size. */
    predicate Valid()
    {
      scale > 0.0 && srcSize >= 1 && dstSize >= 0
    }
  }

  /** The tables returned to the resamplers. */
  datatype SamplingData = SamplingData(numSamples: nat,
                                       indicesX: seq<int>, indicesY: seq<seq<int>>,
                                       weightsX: seq<real>, weightsY: seq<seq<real>>)

  /** The curve radius in source pixels: widened by `1/scale` when shrinking. */
  function SamplingRadius(curve: Curve, scale: real): (r: real)
    requires scale > 0.0
    ensures r >= Radius(curve)
    ensures scale < 1.0 ==> r * scale == Radius(curve)
    ensures scale >= 1.0 ==> r == Radius(curve)
  {
    if scale < 1.0 then Radius(curve) / scale else Radius(curve)
  }

  /** The minimum number of samples covering the curve: the diameter rounded up. */
  function NumSamples(curve: Curve, scale: real): (n: nat)
    requires scale > 0.0
    ensures 2.0 * SamplingRadius(curve, scale) <= n as real < 2.0 * SamplingRadius(curve, scale) + 1.0
    ensures n >= 1
  {
    Ceil(SamplingRadius(curve, scale) * 2.0)
  }

  /** The translation between the source and destination centres, in source pixels. */
  function CenterOffset(a: Axis): real
    requires a.Valid()
  {
    ((a.srcSize - 1) as real - ((a.dstSize - 1) as real + a.offset * 2.0) / a.scale) / 2.0
  }

  /** Where destination pixel `i` lies in source coordinates. */
  function Center(a: Axis, i: int): real
    requires a.Valid()
  {
    i as real / a.scale + CenterOffset(a)
  }

  /** The first source position of the sampling window of destination pixel `i`. */
  function Left(a: Axis, i: int): int
    requires a.Valid()
  {
    Ceil(Center(a, i) - SamplingRadius(a.curve, a.scale))
  }

  /** A source position clamped to the image: edge pixels are repeated outward. */
  function Clamp(j: int, size: int): (n: int)
    requires size >= 1
    ensures 0 <= n < size
  {
    if j < 0 then 0 else if j >= size then size - 1 else j
  }

  /** The array offset of the `t`-th sample of destination pixel `i`. */
  function SampleIndex(a: Axis, i: int, t: int): int
    requires a.Valid()
  {
    Clamp(Left(a, i) + t, a.srcSize) * a.pixelStride
  }

  /** The signed distance from the centre of pixel `i` to its `t`-th sample. */
  function Distance(a: Axis, i: int, t: int): real
    requires a.Valid()
  {
    (Left(a, i) + t) as real - Center(a, i)
  }

  /** Where the curve is evaluated for a sample: the distance, in destination scale when shrinking. */
  function CurvePosition(a: Axis, i: int, t: int): real
    requires a.Valid()
  {
    if a.scale < 1.0 then Distance(a, i, t) * a.scale else Distance(a, i, t)
  }

  /** The curve evaluated at a sample. */
  function RawWeight(a: Axis, i: int, t: int): real
    requires a.Valid()
  {
    Apply(a.curve, a.sin, CurvePosition(a, i, t))
  }

  function RawRow(a: Axis, i: int): (row: seq<real>)
    requires a.Valid()
    ensures |row| == NumSamples(a.curve, a.scale)
  {
    seq(NumSamples(a.curve, a.scale), t => RawWeight(a, i, t))
  }

  /** The sum of a sequence, accumulated front to back. */
  function Sum(s: seq<real>): real
  {
    if |s| == 0 then 0.0 else Sum(s[..|s| - 1]) + s[|s| - 1]
  }

  /** A row divided by its sum, unless that sum is zero. */
  function Normalized(s: seq<real>): (r: seq<real>)
    ensures |r| == |s|
  {
    var total := Sum(s);
    if total != 0.0 then seq(|s|, t requires 0 <= t < |s| => s[t] / total) else s
  }

  function WeightRow(a: Axis, i: int): (row: seq<real>)
    requires a.Valid()
    ensures |row| == NumSamples(a.curve, a.scale)
  {
    Normalized(RawRow(a, i))
  }

  /** The tables `createSubSampling` computes, in both layouts. */
  function Expected(a: Axis): SamplingData
    requires a.Valid()
  {
    var n := NumSamples(a.curve, a.scale);
    SamplingData(n,
                 seq(a.dstSize * n, k => SampleIndex(a, k / n, k % n)),
                 seq(a.dstSize, i => seq(n, t => SampleIndex(a, i, t))),
                 seq(a.dstSize * n, k => WeightRow(a, k / n)[k % n]),
                 seq(a.dstSize, i => WeightRow(a, i)))
  }

  /** The rows of a two-dimensional array, as Java's `int[][]`/`float[][]` would hand them out. */
  function Rows<T>(m: array2<T>): (r: seq<seq<T>>)
    reads m
    ensures |r| == m.Length0
    ensures forall i :: 0 <= i < m.Length0 ==> |r[i]| == m.Length1
    ensures forall i, t :: 0 <= i < m.Length0 && 0 <= t < m.Length1 ==> r[i][t] == m[i, t]
  {
    seq(m.Length0, i requires 0 <= i < m.Length0 reads m =>
      seq(m.Length1, t requires 0 <= t < m.Length1 reads m => m[i, t]))
  }

  /** Position `t` of row `i` in a flat layout of rows of length `n`. */
  lemma FlatPosition(i: int, t: int, n: int, rows: int)
    requires 0 <= i < rows && 0 <= t < n
    ensures 0 <= i * n + t < rows * n
    ensures (i * n + t) / n == i && (i * n + t) % n == t
  {
    MulMonotone(i + 1, rows, n);
    assert i * n + t < (i + 1) * n;
    MulMonotone(0, i, n);
    var x := i * n + t;
    var q, r := x / n, x % n;
    assert (q - i) * n == t - r;
    if q - i >= 1 {
      MulMonotone(1, q - i, n);
    } else if q - i <= -1 {
      MulMonotone(q - i, -1, n);
    }
  }

  lemma MulMonotone(x: int, y: int, n: int)
    requires x <= y && n >= 0
    ensures x * n <= y * n
  {
  }

  predicate FlatDone(a: Axis, n: nat, indicesX: array<int>, weightsX: array<real>, upto: int)
    requires a.Valid() && n == NumSamples(a.curve, a.scale)
    requires 0 <= upto <= indicesX.Length && upto <= weightsX.Length
    reads indicesX, weightsX
  {
    forall k :: 0 <= k < upto ==>
      indicesX[k] == SampleIndex(a, k / n, k % n) && weightsX[k] == WeightRow(a, k / n)[k % n]
  }

  predicate RowsDone(a: Axis, n: nat, indicesY: array2<int>, weightsY: array2<real>, rows: int)
    requires a.Valid() && n == NumSamples(a.curve, a.scale)
    requires 0 <= rows <= indicesY.Length0 && rows <= weightsY.Length0
    requires indicesY.Length1 == n && weightsY.Length1 == n
    reads indicesY, weightsY
  {
    forall i, t :: 0 <= i < rows && 0 <= t < n ==>
      indicesY[i, t] == SampleIndex(a, i, t) && weightsY[i, t] == WeightRow(a, i)[t]
  }

  /** Builds the sampling tables of one axis. */
  method CreateSubSampling(a: Axis) returns (data: SamplingData)
    requires a.Valid()
    ensures data == Expected(a)
  {
    var numSamples := NumSamples(a.curve, a.scale);
    var indicesX := new int[a.dstSize * numSamples];
    var indicesY := new int[a.dstSize, numSamples];
    var weightsX := new real[a.dstSize * numSamples];
    var weightsY := new real[a.dstSize, numSamples];

    ComputeRows(a, numSamples, indicesX, indicesY, weightsX, weightsY);
    data := SamplingData(numSamples, indicesX[..], Rows(indicesY), weightsX[..], Rows(weightsY));
    TablesAreExpected(a, data, indicesX, indicesY, weightsX, weightsY);
  }

  /** The row loop of `createSubSampling`: every row of both layouts filled and normalised. */
  method ComputeRows(a: Axis, numSamples: nat,
                     indicesX: array<int>, indicesY: array2<int>, weightsX: array<real>, weightsY: array2<real>)
    requires a.Valid() && numSamples == NumSamples(a.curve, a.scale)
    requires indicesX.Length == weightsX.Length == a.dstSize * numSamples
    requires indicesY.Length0 == weightsY.Length0 == a.dstSize
    requires indicesY.Length1 == weightsY.Length1 == numSamples
    modifies indicesX, indicesY, weightsX, weightsY
    ensures FlatDone(a, numSamples, indicesX, weightsX, a.dstSize * numSamples)
    ensures RowsDone(a, numSamples, indicesY, weightsY, a.dstSize)
  {
    var k := 0;
    var i := 0;
    while i < a.dstSize
      invariant 0 <= i <= a.dstSize && k == i * numSamples && k <= indicesX.Length
      invariant FlatDone(a, numSamples, indicesX, weightsX, k)
      invariant RowsDone(a, numSamples, indicesY, weightsY, i)
    {
      FlatPosition(i, numSamples - 1, numSamples, a.dstSize);
      ComputeRow(a, numSamples, i, k, indicesX, indicesY, weightsX, weightsY);
      NextRowStart(i, numSamples);
      k := k + numSamples;
      i := i + 1;
    }
  }

  lemma NextRowStart(i: int, n: int)
    ensures (i + 1) * n == i * n + n
  {
  }

  /** One iteration of the row loop: fill row `i`, then normalise it. */
  method ComputeRow(a: Axis, n: nat, i: int, subIndex: int,
                    indicesX: array<int>, indicesY: array2<int>, weightsX: array<real>, weightsY: array2<real>)
    requires a.Valid() && n == NumSamples(a.curve, a.scale) && 0 <= i < a.dstSize && subIndex == i * n
    requires indicesX.Length == weightsX.Length == a.dstSize * n && subIndex + n <= indicesX.Length
    requires indicesY.Length0 == weightsY.Length0 == a.dstSize
    requires indicesY.Length1 == weightsY.Length1 == n
    requires FlatDone(a, n, indicesX, weightsX, subIndex) && RowsDone(a, n, indicesY, weightsY, i)
    modifies indicesX, indicesY, weightsX, weightsY
    ensures FlatDone(a, n, indicesX, weightsX, subIndex + n) && RowsDone(a, n, indicesY, weightsY, i + 1)
  {
    FillRow(a, n, i, subIndex, indicesX, indicesY, weightsX, weightsY);
    NormalizeRow(a, n, i, subIndex, weightsX, weightsY);
    forall k' | 0 <= k' < subIndex + n
      ensures indicesX[k'] == SampleIndex(a, k' / n, k' % n)
      ensures weightsX[k'] == WeightRow(a, k' / n)[k' % n]
    {
      if k' < subIndex {
        assert old(indicesX[k'] == SampleIndex(a, k' / n, k' % n));
        assert old(weightsX[k'] == WeightRow(a, k' / n)[k' % n]);
      } else {
        FlatPosition(i, k' - subIndex, n, a.dstSize);
      }
    }
  }

  lemma TablesAreExpected(a: Axis, data: SamplingData, indicesX: array<int>, indicesY: array2<int>,
                          weightsX: array<real>, weightsY: array2<real>)
    requires a.Valid() && data.numSamples == NumSamples(a.curve, a.scale)
    requires indicesX.Length == weightsX.Length == a.dstSize * data.numSamples
    requires indicesY.Length0 == weightsY.Length0 == a.dstSize
    requires indicesY.Length1 == weightsY.Length1 == data.numSamples
    requires FlatDone(a, data.numSamples, indicesX, weightsX, a.dstSize * data.numSamples)
    requires RowsDone(a, data.numSamples, indicesY, weightsY, a.dstSize)
    requires data == SamplingData(data.numSamples, indicesX[..], Rows(indicesY), weightsX[..], Rows(weightsY))
    ensures data == Expected(a)
  {
    var expected := Expected(a);
    assert indicesX[..] == expected.indicesX;
    assert weightsX[..] == expected.weightsX;
    assert forall r | 0 <= r < a.dstSize :: Rows(indicesY)[r] == expected.indicesY[r];
    assert forall r | 0 <= r < a.dstSize :: Rows(weightsY)[r] == expected.weightsY[r];
  }

  /** Fills row `i` of both layouts with the clamped indices and the raw curve weights. */
  method FillRow(a: Axis, n: nat, i: int, subIndex: int,
                 indicesX: array<int>, indicesY: array2<int>, weightsX: array<real>, weightsY: array2<real>)
    requires a.Valid() && n == NumSamples(a.curve, a.scale) && 0 <= i < a.dstSize
    requires 0 <= subIndex && subIndex + n <= indicesX.Length == weightsX.Length
    requires indicesY.Length0 == weightsY.Length0 == a.dstSize
    requires indicesY.Length1 == weightsY.Length1 == n
    modifies indicesX, indicesY, weightsX, weightsY
    ensures forall t :: 0 <= t < n ==>
      indicesX[subIndex + t] == indicesY[i, t] == SampleIndex(a, i, t) &&
      weightsX[subIndex + t] == weightsY[i, t] == RawWeight(a, i, t)
    ensures forall k :: 0 <= k < indicesX.Length && !(subIndex <= k < subIndex + n) ==>
      indicesX[k] == old(indicesX[k]) && weightsX[k] == old(weightsX[k])
    ensures forall r, t :: 0 <= r < a.dstSize && r != i && 0 <= t < n ==>
      indicesY[r, t] == old(indicesY[r, t]) && weightsY[r, t] == old(weightsY[r, t])
  {
    var center := i as real / a.scale + CenterOffset(a);
    var left := Ceil(center - SamplingRadius(a.curve, a.scale));
    assert center == Center(a, i) && left == Left(a, i);
    var right := left + n;
    var k := subIndex;
    var j := left;
    while j < right
      invariant left <= j <= right && k == subIndex + (j - left)
      invariant forall t :: 0 <= t < j - left ==>
        indicesX[subIndex + t] == indicesY[i, t] == SampleIndex(a, i, t) &&
        weightsX[subIndex + t] == weightsY[i, t] == RawWeight(a, i, t)
      invariant forall k' :: 0 <= k' < indicesX.Length && !(subIndex <= k' < k) ==>
        indicesX[k'] == old(indicesX[k']) && weightsX[k'] == old(weightsX[k'])
      invariant forall r, t :: 0 <= r < a.dstSize && r != i && 0 <= t < n ==>
        indicesY[r, t] == old(indicesY[r, t]) && weightsY[r, t] == old(weightsY[r, t])
    {
      // the curve is applied in destination scale when shrinking
      var x := if a.scale < 1.0 then (j as real - center) * a.scale else j as real - center;
      PositionOfSample(a, i, j, center, left);
      var weight := Apply(a.curve, a.sin, x);
      var sample := if j < 0 then 0 else if j >= a.srcSize then a.srcSize - 1 else j;
      indicesX[k] := sample * a.pixelStride;
      indicesY[i, j - left] := sample * a.pixelStride;
      weightsX[k] := weight;
      weightsY[i, j - left] := weight;
      assert weight == RawWeight(a, i, j - left);
      assert sample * a.pixelStride == SampleIndex(a, i, j - left);
      k := k + 1;
      j := j + 1;
    }
  }

  lemma PositionOfSample(a: Axis, i: int, j: int, center: real, left: int)
    requires a.Valid() && center == Center(a, i) && left == Left(a, i)
    ensures (if a.scale < 1.0 then (j as real - center) * a.scale else j as real - center) == CurvePosition(a, i, j - left)
  {
  }

  /** The sum of the raw weights of row `i`, accumulated front to back. */
  method RowSum(a: Axis, n: nat, i: int, weightsY: array2<real>) returns (sum: real)
    requires a.Valid() && n == NumSamples(a.curve, a.scale) && 0 <= i < weightsY.Length0 && weightsY.Length1 == n
    requires forall t :: 0 <= t < n ==> weightsY[i, t] == RawWeight(a, i, t)
    ensures sum == Sum(RawRow(a, i))
  {
    ghost var row := RawRow(a, i);
    sum := 0.0;
    var j := 0;
    while j < n
      invariant 0 <= j <= n && sum == Sum(row[..j])
    {
      assert row[..j + 1][..j] == row[..j];
      sum := sum + weightsY[i, j];
      j := j + 1;
    }
    assert row[..n] == row;
  }

  /** Divides row `i` of both weight layouts by the row's sum, unless it is zero. */
  method NormalizeRow(a: Axis, n: nat, i: int, subIndex: int, weightsX: array<real>, weightsY: array2<real>)
    requires a.Valid() && n == NumSamples(a.curve, a.scale) && 0 <= i < a.dstSize
    requires 0 <= subIndex && subIndex + n <= weightsX.Length
    requires weightsY.Length0 == a.dstSize && weightsY.Length1 == n
    requires forall t :: 0 <= t < n ==> weightsX[subIndex + t] == weightsY[i, t] == RawWeight(a, i, t)
    modifies weightsX, weightsY
    ensures forall t :: 0 <= t < n ==> weightsX[subIndex + t] == weightsY[i, t] == WeightRow(a, i)[t]
    ensures forall k :: 0 <= k < weightsX.Length && !(subIndex <= k < subIndex + n) ==> weightsX[k] == old(weightsX[k])
    ensures forall r, t :: 0 <= r < a.dstSize && r != i && 0 <= t < n ==> weightsY[r, t] == old(weightsY[r, t])
  {
    ghost var row := RawRow(a, i);
    var sum := RowSum(a, n, i, weightsY);
    if sum != 0.0 {
      DivideRow(weightsX, weightsY, subIndex, i, n, row, sum);
    }
  }

  /** Divides the `n` weights of row `i` (at `subIndex` in the flat layout) by `sum`. */
  method DivideRow(weightsX: array<real>, weightsY: array2<real>, subIndex: int, i: int, n: nat,
                   ghost row: seq<real>, sum: real)
    requires sum != 0.0 && |row| == n && 0 <= subIndex && subIndex + n <= weightsX.Length
    requires 0 <= i < weightsY.Length0 && weightsY.Length1 == n
    requires forall t :: 0 <= t < n ==> weightsX[subIndex + t] == weightsY[i, t] == row[t]
    modifies weightsX, weightsY
    ensures forall t :: 0 <= t < n ==> weightsX[subIndex + t] == weightsY[i, t] == row[t] / sum
    ensures forall k :: 0 <= k < weightsX.Length && !(subIndex <= k < subIndex + n) ==> weightsX[k] == old(weightsX[k])
    ensures forall r, t :: 0 <= r < weightsY.Length0 && r != i && 0 <= t < n ==> weightsY[r, t] == old(weightsY[r, t])
  {
    var j := 0;
    while j < n
      invariant 0 <= j <= n
      invariant forall t :: 0 <= t < j ==> weightsX[subIndex + t] == weightsY[i, t] == row[t] / sum
      invariant forall t :: j <= t < n ==> weightsX[subIndex + t] == weightsY[i, t] == row[t]
      invariant forall k :: 0 <= k < weightsX.Length && !(subIndex <= k < subIndex + n) ==> weightsX[k] == old(weightsX[k])
      invariant forall r, t :: 0 <= r < weightsY.Length0 && r != i && 0 <= t < n ==> weightsY[r, t] == old(weightsY[r, t])
    {
      weightsX[subIndex + j] := weightsX[subIndex + j] / sum;
      weightsY[i, j] := weightsY[i, j] / sum;
      j := j + 1;
    }
  }
}

/** What the sampling tables guarantee to the resamplers. */
module SamplingProperties {
  import opened Java
  import opened Curves
  import opened Sampling

  /** Entry `i * numSamples + t` of the flat layout is entry `[i][t]` of the row layout. */
  lemma LayoutsAgree(a: Axis, i: int, t: int)
    requires a.Valid() && 0 <= i < a.dstSize && 0 <= t < NumSamples(a.curve, a.scale)
    ensures var d, n := Expected(a), NumSamples(a.curve, a.scale);
      0 <= i * n + t < |d.indicesX| == |d.weightsX| &&
      d.indicesX[i * n + t] == d.indicesY[i][t] &&
      d.weightsX[i * n + t] == d.weightsY[i][t]
  {
    var n := NumSamples(a.curve, a.scale);
    FlatPosition(i, t, n, a.dstSize);
  }

  /** Every index addresses a source pixel: a multiple of the stride within the image. */
  lemma {:induction false} IndicesAddressSourcePixels(a: Axis, i: int, t: int)
    requires a.Valid() && a.pixelStride >= 0
    ensures 0 <= SampleIndex(a, i, t) <= (a.srcSize - 1) * a.pixelStride
    ensures a.pixelStride > 0 ==> SampleIndex(a, i, t) % a.pixelStride == 0
  {
    var c := Clamp(Left(a, i) + t, a.srcSize);
    MulMonotone(0, c, a.pixelStride);
    MulMonotone(c, a.srcSize - 1, a.pixelStride);
    if a.pixelStride > 0 {
      FlatPosition(c, 0, a.pixelStride, a.srcSize);
    }
  }

  /** Inside the image a sample addresses its own source pixel; outside, the nearest edge pixel. */
  lemma SamplesClampToEdges(a: Axis, i: int, t: int)
    requires a.Valid()
    ensures var j := Left(a, i) + t;
      (0 <= j < a.srcSize ==> SampleIndex(a, i, t) == j * a.pixelStride) &&
      (j < 0 ==> SampleIndex(a, i, t) == 0) &&
      (j >= a.srcSize ==> SampleIndex(a, i, t) == (a.srcSize - 1) * a.pixelStride)
  {
  }

  /** Within a row the indices never decrease. */
  lemma {:induction false} IndicesNondecreasing(a: Axis, i: int, t1: int, t2: int)
    requires a.Valid() && a.pixelStride >= 0 && t1 <= t2
    ensures SampleIndex(a, i, t1) <= SampleIndex(a, i, t2)
  {
    MulMonotone(Clamp(Left(a, i) + t1, a.srcSize), Clamp(Left(a, i) + t2, a.srcSize), a.pixelStride);
  }

  /** Sample `t` of a window lies between `t - radius` and `t - radius + 1` from the centre. */
  lemma WindowPosition(a: Axis, i: int, t: int)
    requires a.Valid()
    ensures var r := SamplingRadius(a.curve, a.scale);
      t as real - r <= Distance(a, i, t) < t as real - r + 1.0
  {
  }

  /**
   * The window covers the curve: a sample position outside the window would
   * get weight zero from every curve but Box, so no contribution is lost.
   */
  lemma {:induction false} WindowCoversCurve(a: Axis, i: int, t: int)
    requires a.Valid() && !a.curve.Box?
    requires t < 0 || t >= NumSamples(a.curve, a.scale)
    ensures RawWeight(a, i, t) == 0.0
  {
    OutsideWindowIsBeyondRadius(a, i, t);
    assert RawWeight(a, i, t) == Apply(a.curve, a.sin, CurvePosition(a, i, t));
  }

  /** Outside the window, the position on the curve is at least the curve's radius from its centre. */
  lemma OutsideWindowIsBeyondRadius(a: Axis, i: int, t: int)
    requires a.Valid()
    requires t < 0 || t >= NumSamples(a.curve, a.scale)
    ensures RAbs(CurvePosition(a, i, t)) >= Radius(a.curve)
  {
    var r := SamplingRadius(a.curve, a.scale);
    var d := Distance(a, i, t);
    WindowPosition(a, i, t);
    assert RAbs(d) >= r;
    var x := CurvePosition(a, i, t);
    if a.scale < 1.0 {
      assert r * a.scale == Radius(a.curve);
      ScaledDistance(d, r, a.scale);
      assert x == d * a.scale;
    }
  }

  lemma ScaledDistance(d: real, r: real, scale: real)
    requires 0.0 < scale && RAbs(d) >= r
    ensures RAbs(d * scale) >= r * scale
  {
    if d >= 0.0 {
      assert d * scale >= r * scale;
    } else {
      assert -d * scale >= r * scale;
    }
  }

  lemma DivSelf(c: real)
    requires c != 0.0
    ensures c / c == 1.0
  {
  }

  /** Dividing every element by `c` divides the sum by `c`. */
  lemma {:induction false} SumScaled(s: seq<real>, c: real, scaled: seq<real>)
    requires c != 0.0 && |scaled| == |s|
    requires forall t :: 0 <= t < |s| ==> scaled[t] == s[t] / c
    ensures Sum(scaled) == Sum(s) / c
  {
    if |s| > 0 {
      SumScaled(s[..|s| - 1], c, scaled[..|s| - 1]);
    }
  }

  /** A row with a non-zero sum is normalised to sum one; a zero-sum row is left as it was. */
  lemma {:induction false} NormalizedSumsToOne(row: seq<real>)
    ensures Sum(row) != 0.0 ==> Sum(Normalized(row)) == 1.0
    ensures Sum(row) == 0.0 ==> Normalized(row) == row
  {
    if Sum(row) != 0.0 {
      var c := Sum(row);
      SumScaled(row, c, Normalized(row));
      assert Sum(Normalized(row)) == c / c;
      DivSelf(c);
    }
  }

  /** Every weight row of a table sums to one unless all its raw weights cancel out. */
  lemma WeightRowsSumToOne(a: Axis, i: int)
    requires a.Valid()
    ensures Sum(RawRow(a, i)) != 0.0 ==> Sum(WeightRow(a, i)) == 1.0
    ensures Sum(RawRow(a, i)) == 0.0 ==> WeightRow(a, i) == RawRow(a, i)
  {
    NormalizedSumsToOne(RawRow(a, i));
  }

  /** The axis with the same arguments but a different offset. */
  function WithOffset(a: Axis, offset: real): (b: Axis)
    ensures b.Valid() == a.Valid()
  {
    Axis(a.curve, a.sin, a.srcSize, a.dstSize, a.scale, offset, a.pixelStride)
  }

  /** An offset shifts every destination centre by `-offset / scale` source pixels. */
  lemma OffsetShiftsCenters(a: Axis, i: int)
    requires a.Valid()
    ensures Center(a, i) == Center(WithOffset(a, 0.0), i) - a.offset / a.scale
  {
  }

  /** Without offset, pixels `i` and `dstSize - 1 - i` map to mirror positions around the source centre. */
  lemma CentersAreSymmetric(a: Axis, i: int)
    requires a.Valid() && a.offset == 0.0
    ensures Center(a, i) + Center(a, a.dstSize - 1 - i) == (a.srcSize - 1) as real
  {
    var s := a.scale;
    assert i as real / s + (a.dstSize - 1 - i) as real / s == (a.dstSize - 1) as real / s;
  }

  lemma SumOfUnit(s: seq<real>, p: int)
    requires 0 <= p < |s|
    requires forall t :: 0 <= t < |s| ==> s[t] == if t == p then 1.0 else 0.0
    ensures Sum(s) == 1.0
  {
    if |s| - 1 > p {
      SumOfUnit(s[..|s| - 1], p);
    } else {
      SumOfZeros(s[..|s| - 1]);
    }
  }

  lemma SumOfZeros(s: seq<real>)
    requires forall t :: 0 <= t < |s| ==> s[t] == 0.0
    ensures Sum(s) == 0.0
  {
  }

  /** Scale one, equal sizes and no offset put destination pixel `i` exactly on source pixel `i`. */
  lemma IdentityCenter(a: Axis, i: int)
    requires a.Valid() && a.srcSize == a.dstSize && a.scale == 1.0 && a.offset == 0.0
    ensures Center(a, i) == i as real
    ensures forall t :: Distance(a, i, t) == (Left(a, i) + t - i) as real
  {
    assert CenterOffset(a) == 0.0;
  }

  /**
   * At scale one with equal sizes and no offset, destination pixel `i` takes
   * source pixel `i` with weight one and every other sample with weight zero,
   * for every curve but Box (given that `sin` vanishes at multiples of pi).
   */
  lemma {:induction false} IdentityScalingCopiesPixels(a: Axis, i: int)
    requires a.Valid() && !a.curve.Box?
    requires a.srcSize == a.dstSize && a.scale == 1.0 && a.offset == 0.0 && 0 <= i < a.dstSize
    requires forall n: int :: a.sin(PiTimes(n)) == 0.0
    ensures Left(a, i) <= i < Left(a, i) + NumSamples(a.curve, a.scale)
    ensures forall t :: 0 <= t < NumSamples(a.curve, a.scale) ==>
      WeightRow(a, i)[t] == (if Left(a, i) + t == i then 1.0 else 0.0)
  {
    var n := NumSamples(a.curve, a.scale);
    var left := Left(a, i);
    var p := i - left;
    IdentityCenter(a, i);
    WindowPosition(a, i, 0);
    WindowPosition(a, i, p);
    assert 0 <= p < n;
    var row := RawRow(a, i);
    forall t | 0 <= t < n
      ensures row[t] == if t == p then 1.0 else 0.0
    {
      assert row[t] == Apply(a.curve, a.sin, (left + t - i) as real);
      if t != p {
        ApplyVanishesAtNonzeroIntegers(a.curve, a.sin, left + t - i);
      }
    }
    SumOfUnit(row, p);
    NormalizedSumsToOne(row);
    assert Normalized(row) == row by {
      assert forall t :: 0 <= t < n ==> row[t] / 1.0 == row[t];
    }
  }
}
