/**
 * The two resampling passes over the intermediate buffer of levels.  Every
 * output sample is a weighted sum of input samples of the same channel,
 * truncated to an integer and narrowed to a short.  The horizontal pass reads
 * the flat sampling table, one window of `numSamples` taps per destination
 * column; the vertical pass reads the row-wise table, one window per
 * destination row.  Both write rows `[begin, end)` of their output, `c`
 * samples per pixel.
 *
 * Single-precision arithmetic is modelled as exact arithmetic on reals.
 */
module ResampleWorkers {
  import opened Java
  import opened Wrappers
  import opened Sampling
  import opened SamplingProperties
  import opened Buffers

  /** The taps of one output pixel: input sample `base + idx[i] + ch` weighs `w[i]`. */
  datatype Taps = Taps(base: int, idx: seq<int>, w: seq<real>)

  /** Taps whose indices and weights pair up. */
  type Kernel = k: Taps | |k.w| == |k.idx| witness Taps(0, [], [])

  /** Every tap of `k` lies within an input of `len` samples, for all `c` channels. */
  predicate Fits(k: Kernel, c: int, len: int)
  {
    forall i :: 0 <= i < |k.idx| ==> 0 <= k.base + k.idx[i] && k.base + k.idx[i] + c <= len
  }

  /** The input sample that tap `i` of `k` reads on channel `ch` (0 outside the input, which `Fits` rules out). */
  function Tap(input: seq<int>, k: Kernel, ch: int, i: int): int
    requires 0 <= i < |k.idx|
  {
    var j := k.base + k.idx[i] + ch;
    if 0 <= j < |input| then input[j] else 0
  }

  /** The first `n` taps of `k` on channel `ch`, summed front to back. */
  function Dot(input: seq<int>, k: Kernel, ch: int, n: int): real
    requires 0 <= n <= |k.idx|
  {
    if n == 0 then 0.0
    else Dot(input, k, ch, n - 1) + Tap(input, k, ch, n - 1) as real * k.w[n - 1]
  }

  /** `(short)sample`: the sum truncated toward zero and narrowed to 16 bits. */
  function Sample(input: seq<int>, k: Kernel, ch: int): (s: int)
    ensures IsShort(s)
  {
    ToShort(Trunc(Dot(input, k, ch, |k.idx|)))
  }

  /** The `c` samples of the output pixel with kernel `k`. */
  function PixelOut(input: seq<int>, k: Kernel, c: int): (p: seq<int>)
    requires c >= 0
    ensures |p| == c
  {
    seq(c, ch => Sample(input, k, ch))
  }

  /** Which table a pass reads. */
  datatype Direction = Horizontal(srcWidth: int) | Vertical

  /** `s[from..from + n]`, or nothing when that is out of range. */
  function Slice<T>(s: seq<T>, from: int, n: int): seq<T>
  {
    if 0 <= from && 0 <= n && from + n <= |s| then s[from..from + n] else []
  }

  function RowOf<T>(rows: seq<seq<T>>, y: int): seq<T>
  {
    if 0 <= y < |rows| then rows[y] else []
  }

  /**
   * The kernel of output pixel `(x, y)`: horizontally the taps `x * numSamples`
   * onwards of the flat table, on row `y` of the input; vertically the taps of
   * table row `y`, on column `x`.
   */
  function KernelAt(dir: Direction, data: SamplingData, c: int, y: int, x: int): Kernel
  {
    var n := data.numSamples;
    match dir
    case Horizontal(srcWidth) =>
      Aligned(srcWidth * y * c, Slice(data.indicesX, x * n, n), Slice(data.weightsX, x * n, n))
    case Vertical =>
      Aligned(x * c, Slice(RowOf(data.indicesY, y), 0, n), Slice(RowOf(data.weightsY, y), 0, n))
  }

  /** A kernel of the given taps; one whose indices and weights do not pair up has none. */
  function Aligned(base: int, idx: seq<int>, w: seq<real>): (k: Kernel)
    ensures |idx| == |w| ==> k == Taps(base, idx, w)
  {
    if |idx| == |w| then Taps(base, idx, w) else Taps(base, [], [])
  }

  /** The kernel of every output pixel `(x, y)` of a pass, indexed `(y, x)`. */
  type KernelMap = (int, int) -> Kernel

  /** The kernels a pass reads from its sampling tables. */
  function Kernels(dir: Direction, data: SamplingData, c: int): (kernels: KernelMap)
    ensures forall y, x :: kernels(y, x) == KernelAt(dir, data, c, y, x)
  {
    (y, x) => KernelAt(dir, data, c, y, x)
  }

  /** Every output pixel of rows `[begin, end)`, `width` pixels each, reads inside the input. */
  predicate AllFit(kernels: KernelMap, c: int, width: int, begin: int, end: int, len: int)
  {
    forall y, x :: begin <= y < end && 0 <= x < width ==> Fits(kernels(y, x), c, len)
  }

  /** The samples of every output pixel of a pass. */
  function Pixels(input: seq<int>, kernels: KernelMap, c: int): (pixels: PixelMap)
    requires c >= 0
    ensures HasChannels(pixels, c)
    ensures forall y, x :: pixels(y, x) == PixelOut(input, kernels(y, x), c)
  {
    var pixels := (y, x) => PixelOut(input, kernels(y, x), c);
    assert forall y, x :: |pixels(y, x)| == |PixelOut(input, kernels(y, x), c)| == c;
    pixels
  }

  /** The first `x` output pixels of row `y`, one after the other. */
  function RowOut(input: seq<int>, kernels: KernelMap, c: int, y: int, x: nat): seq<int>
    requires c >= 0
  {
    PixelRow(Pixels(input, kernels, c), y, x)
  }

  /** The `count` output rows from row `begin` on, `width` pixels each, one after the other. */
  function RowsOut(input: seq<int>, kernels: KernelMap, c: int, width: nat, begin: int, count: nat): seq<int>
    requires c >= 0
  {
    PixelRows(Pixels(input, kernels, c), width, begin, count)
  }

  /** The inner loop: the weighted sum of one channel over all taps of a kernel. */
  method Convolve(inPixels: seq<int>, k: Kernel, c: int, ch: int) returns (s: real)
    requires Fits(k, c, |inPixels|) && 0 <= ch < c
    ensures s == Dot(inPixels, k, ch, |k.idx|)
  {
    s := 0.0;
    var i := 0;
    while i < |k.idx|
      invariant 0 <= i <= |k.idx|
      invariant s == Dot(inPixels, k, ch, i)
    {
      assert Tap(inPixels, k, ch, i) == inPixels[k.base + k.idx[i] + ch];
      s := s + inPixels[k.base + k.idx[i] + ch] as real * k.w[i];
      i := i + 1;
    }
  }

  /** Writes the `c` samples of one output pixel at `u`. */
  method ResamplePixel(inPixels: seq<int>, outPixels: array<int>, k: Kernel, c: int, u: int)
    requires Fits(k, c, |inPixels|) && c >= 0
    requires 0 <= u && u + c <= outPixels.Length
    modifies outPixels
    ensures Written(outPixels[..], old(outPixels[..]), u, PixelOut(inPixels, k, c))
  {
    var ch := 0;
    while ch < c
      invariant 0 <= ch <= c
      invariant forall j :: u <= j < u + ch ==> outPixels[j] == Sample(inPixels, k, j - u)
      invariant forall j :: 0 <= j < outPixels.Length && !(u <= j < u + ch) ==> outPixels[j] == old(outPixels[j])
    {
      var s := Convolve(inPixels, k, c, ch);
      outPixels[u + ch] := ToShort(Trunc(s));
      ch := ch + 1;
    }
    WrittenFromSamples(outPixels[..], old(outPixels[..]), u, PixelOut(inPixels, k, c));
  }

  /** Writes output row `y`, `width` pixels, starting at `u`. */
  method ResampleRow(inPixels: seq<int>, outPixels: array<int>, kernels: KernelMap,
                     c: int, width: nat, y: int, u: int)
    requires c >= 0
    requires AllFit(kernels, c, width, y, y + 1, |inPixels|)
    requires 0 <= u && u + |RowOut(inPixels, kernels, c, y, width)| <= outPixels.Length
    modifies outPixels
    ensures Written(outPixels[..], old(outPixels[..]), u, RowOut(inPixels, kernels, c, y, width))
  {
    ghost var before := outPixels[..];
    var q := u;
    for x := 0 to width
      invariant q == u + |RowOut(inPixels, kernels, c, y, x)|
      invariant Written(outPixels[..], before, u, RowOut(inPixels, kernels, c, y, x))
    {
      NextPixel(inPixels, outPixels, kernels, c, width, y, u, x, q, before);
      q := q + c;
    }
  }

  /** One step of `ResampleRow`: appends pixel `x` of row `y` at `q`, after the `x` pixels written from `u` on. */
  method NextPixel(inPixels: seq<int>, outPixels: array<int>, kernels: KernelMap,
                   c: int, width: nat, y: int, u: int, x: nat, q: int, ghost before: seq<int>)
    requires c >= 0 && x < width
    requires AllFit(kernels, c, width, y, y + 1, |inPixels|)
    requires q == u + |RowOut(inPixels, kernels, c, y, x)|
    requires u + |RowOut(inPixels, kernels, c, y, width)| <= outPixels.Length
    requires Written(outPixels[..], before, u, RowOut(inPixels, kernels, c, y, x))
    modifies outPixels
    ensures Written(outPixels[..], before, u, RowOut(inPixels, kernels, c, y, x + 1))
    ensures q + c == u + |RowOut(inPixels, kernels, c, y, x + 1)|
  {
    ghost var mid := outPixels[..];
    RowIsPrefix(Pixels(inPixels, kernels, c), y, x + 1, width);
    ResamplePixel(inPixels, outPixels, kernels(y, x), c, q);
    WrittenAppend(before, mid, outPixels[..], u,
                  RowOut(inPixels, kernels, c, y, x), PixelOut(inPixels, kernels(y, x), c));
  }

  /** Writes the `count` output rows from row `begin` on, `width` pixels each, from sample `lo` on. */
  method ResampleRows(inPixels: seq<int>, outPixels: array<int>, kernels: KernelMap,
                      c: int, width: nat, begin: int, count: nat, lo: int)
    requires c >= 0
    requires AllFit(kernels, c, width, begin, begin + count, |inPixels|)
    requires 0 <= lo && lo + |RowsOut(inPixels, kernels, c, width, begin, count)| <= outPixels.Length
    modifies outPixels
    ensures Written(outPixels[..], old(outPixels[..]), lo, RowsOut(inPixels, kernels, c, width, begin, count))
  {
    ghost var before := outPixels[..];
    var stride := Times(width, c);
    var u := lo;
    for i := 0 to count
      invariant u == lo + |RowsOut(inPixels, kernels, c, width, begin, i)|
      invariant Written(outPixels[..], before, lo, RowsOut(inPixels, kernels, c, width, begin, i))
    {
      NextRow(inPixels, outPixels, kernels, c, width, begin, count, lo, i, u, before);
      u := u + stride;
    }
  }

  /** One step of `ResampleRows`: appends row `begin + i` at `u`, after the `i` rows written from `lo` on. */
  method NextRow(inPixels: seq<int>, outPixels: array<int>, kernels: KernelMap,
                 c: int, width: nat, begin: int, count: nat, lo: int, i: nat, u: int, ghost before: seq<int>)
    requires c >= 0 && i < count
    requires AllFit(kernels, c, width, begin, begin + count, |inPixels|)
    requires u == lo + |RowsOut(inPixels, kernels, c, width, begin, i)|
    requires lo + |RowsOut(inPixels, kernels, c, width, begin, count)| <= outPixels.Length
    requires Written(outPixels[..], before, lo, RowsOut(inPixels, kernels, c, width, begin, i))
    modifies outPixels
    ensures Written(outPixels[..], before, lo, RowsOut(inPixels, kernels, c, width, begin, i + 1))
    ensures u + Times(width, c) == lo + |RowsOut(inPixels, kernels, c, width, begin, i + 1)|
  {
    ghost var mid := outPixels[..];
    RowsIsPrefix(Pixels(inPixels, kernels, c), width, begin, i + 1, count);
    RowLength(Pixels(inPixels, kernels, c), c, begin + i, width);
    AllFitNarrows(kernels, c, width, begin, begin + count, begin + i, begin + i + 1, |inPixels|);
    ResampleRow(inPixels, outPixels, kernels, c, width, begin + i, u);
    WrittenAppend(before, mid, outPixels[..], lo,
                  RowsOut(inPixels, kernels, c, width, begin, i), RowOut(inPixels, kernels, c, begin + i, width));
  }

  lemma AllFitNarrows(kernels: KernelMap, c: int, width: int, begin: int, end: int,
                      begin': int, end': int, len: int)
    requires AllFit(kernels, c, width, begin, end, len) && begin <= begin' && end' <= end
    ensures AllFit(kernels, c, width, begin', end', len)
  {
  }

  /** The rows `[begin, end)` of `width` pixels of `c` samples occupy samples `[begin * width * c, end * width * c)`. */
  lemma RowRangeOffsets(begin: nat, end: nat, width: nat, c: nat)
    requires begin <= end
    ensures begin * width * c + Times(end - begin, Times(width, c)) == end * width * c
    ensures 0 <= begin * width * c
  {
    var w := width * c;
    TimesIsProduct(width, c);
    TimesIsProduct(end - begin, w);
    ProductRegrouping(begin, end, width, c);
    MulIsMonotone(0, begin, w);
  }

  lemma ProductRegrouping(begin: int, end: int, width: int, c: int)
    ensures begin * width * c == begin * (width * c) && end * width * c == end * (width * c)
    ensures (end - begin) * (width * c) == end * (width * c) - begin * (width * c)
  {
  }

  /**
   * `HorizontalResampleWorker.call`: input rows `[begin, end)`, `srcWidth`
   * pixels each, become output rows of `dstWidth` pixels at the same height;
   * more than four channels is an assertion failure.
   */
  method HorizontalResampleWorker(c: int, srcWidth: int, dstWidth: nat, data: SamplingData,
                                  inPixels: seq<int>, outPixels: array<int>, begin: nat, end: nat)
    returns (r: Outcome)
    requires c >= 1 && begin <= end
    requires c <= 4 ==> AllFit(Kernels(Horizontal(srcWidth), data, c), c, dstWidth, begin, end, |inPixels|)
    requires c <= 4 ==> end * dstWidth * c <= outPixels.Length
    modifies outPixels
    ensures r.Pass? <==> c <= 4
    ensures r.Pass? ==> (0 <= begin * dstWidth * c <= end * dstWidth * c &&
      outPixels[begin * dstWidth * c..end * dstWidth * c] ==
      RowsOut(inPixels, Kernels(Horizontal(srcWidth), data, c), c, dstWidth, begin, end - begin))
    ensures r.Fail? ==> outPixels[..] == old(outPixels[..])
    ensures forall j :: 0 <= j < outPixels.Length && !(begin * dstWidth * c <= j < end * dstWidth * c) ==>
      outPixels[j] == old(outPixels[j])
  {
    if c > 4 {
      return Fail("AssertionError");
    }
    var kernels := Kernels(Horizontal(srcWidth), data, c);
    var lo := begin * dstWidth * c;
    ghost var before := outPixels[..];
    ghost var rows := RowsOut(inPixels, kernels, c, dstWidth, begin, end - begin);
    RowRangeOffsets(begin, end, dstWidth, c);
    RowsLength(Pixels(inPixels, kernels, c), c, dstWidth, begin, end - begin);
    ResampleRows(inPixels, outPixels, kernels, c, dstWidth, begin, end - begin, lo);
    assert Written(outPixels[..], before, lo, rows);
    WrittenMeans(outPixels[..], before, lo, rows);
    r := Pass;
  }

  /**
   * `VerticalResampleWorker.call`: output rows `[begin, end)`, `width` pixels
   * each, from the columns of the input; more than four channels is an
   * assertion failure.
   */
  method VerticalResampleWorker(c: int, width: nat, data: SamplingData,
                                inPixels: seq<int>, outPixels: array<int>, begin: nat, end: nat)
    returns (r: Outcome)
    requires c >= 1 && begin <= end
    requires c <= 4 ==> AllFit(Kernels(Vertical, data, c), c, width, begin, end, |inPixels|)
    requires c <= 4 ==> end * width * c <= outPixels.Length
    modifies outPixels
    ensures r.Pass? <==> c <= 4
    ensures r.Pass? ==> (0 <= begin * width * c <= end * width * c &&
      outPixels[begin * width * c..end * width * c] ==
      RowsOut(inPixels, Kernels(Vertical, data, c), c, width, begin, end - begin))
    ensures r.Fail? ==> outPixels[..] == old(outPixels[..])
    ensures forall j :: 0 <= j < outPixels.Length && !(begin * width * c <= j < end * width * c) ==>
      outPixels[j] == old(outPixels[j])
  {
    if c > 4 {
      return Fail("AssertionError");
    }
    var kernels := Kernels(Vertical, data, c);
    var lo := begin * width * c;
    ghost var before := outPixels[..];
    ghost var rows := RowsOut(inPixels, kernels, c, width, begin, end - begin);
    RowRangeOffsets(begin, end, width, c);
    RowsLength(Pixels(inPixels, kernels, c), c, width, begin, end - begin);
    ResampleRows(inPixels, outPixels, kernels, c, width, begin, end - begin, lo);
    assert Written(outPixels[..], before, lo, rows);
    WrittenMeans(outPixels[..], before, lo, rows);
    r := Pass;
  }

  /**
   * The addressing of the workers: sample `ch` of output pixel `x` on row
   * `begin + r` is entry `(x + r * width) * c + ch` of the rows written, so
   * entry `(x + y * width) * c + ch` of the output buffer.
   */
  lemma PixelAddress(input: seq<int>, kernels: KernelMap, c: int, width: nat,
                     begin: int, count: nat, r: nat, x: nat, ch: int)
    requires c >= 0 && r < count && x < width && 0 <= ch < c
    ensures 0 <= (x + r * width) * c + ch < |RowsOut(input, kernels, c, width, begin, count)|
    ensures RowsOut(input, kernels, c, width, begin, count)[(x + r * width) * c + ch] ==
      Sample(input, kernels(begin + r, x), ch)
  {
    var pixels := Pixels(input, kernels, c);
    RowsAddress(pixels, c, width, begin, count, r, x, ch);
    assert pixels(begin + r, x) == PixelOut(input, kernels(begin + r, x), c);
  }

  /** Sample `ch` of pixel `x` on row `begin + r` sits at `(x + r * width) * c + ch` of the rows. */
  lemma RowsAddress(pixels: PixelMap, c: int, width: nat, begin: int, count: nat, r: nat, x: nat, ch: int)
    requires HasChannels(pixels, c) && r < count && x < width && 0 <= ch < c
    ensures 0 <= (x + r * width) * c + ch < |PixelRows(pixels, width, begin, count)|
    ensures PixelRows(pixels, width, begin, count)[(x + r * width) * c + ch] == pixels(begin + r, x)[ch]
  {
    var rowsBefore := |PixelRows(pixels, width, begin, r)|;
    var pixelsBefore := |PixelRow(pixels, begin + r, x)|;
    RowsAt(pixels, width, begin, count, r, x, ch);
    RowsLength(pixels, c, width, begin, r);
    RowLength(pixels, c, begin + r, x);
    AddressArithmetic(x, r, width, c);
    var addr := (x + r * width) * c + ch;
    assert addr == rowsBefore + pixelsBefore + ch;
  }

  lemma AddressArithmetic(x: nat, r: nat, width: nat, c: int)
    ensures Times(r, Times(width, c)) + Times(x, c) == (x + r * width) * c
  {
    TimesIsProduct(width, c);
    TimesIsProduct(r, width * c);
    TimesIsProduct(x, c);
    assert (x + r * width) * c == r * (width * c) + x * c;
  }

  /** The taps of `k` on channel `ch` all read `v`. */
  predicate Flat(input: seq<int>, k: Kernel, ch: int, v: int)
  {
    forall i :: 0 <= i < |k.idx| ==> Tap(input, k, ch, i) == v
  }

  /** Over a flat area the sum is the value times the sum of the weights. */
  lemma {:induction false} DotOfFlat(input: seq<int>, k: Kernel, ch: int, v: int, n: nat)
    requires |k.w| == |k.idx| && n <= |k.idx| && Flat(input, k, ch, v)
    ensures Dot(input, k, ch, n) == v as real * Sum(k.w[..n])
  {
    if n > 0 {
      DotOfFlat(input, k, ch, v, n - 1);
      assert k.w[..n][..n - 1] == k.w[..n - 1];
    }
  }

  /** With weights that sum to one, a flat area stays flat: the resampled sample is its value. */
  lemma FlatStaysFlat(input: seq<int>, k: Kernel, c: int, ch: int, v: int)
    requires Fits(k, c, |input|) && 0 <= ch < c && Flat(input, k, ch, v) && IsShort(v)
    requires Sum(k.w) == 1.0
    ensures Sample(input, k, ch) == v
  {
    DotOfFlat(input, k, ch, v, |k.idx|);
    assert k.w[..|k.idx|] == k.w;
  }

  /** The taps of `k` on channel `ch` all read values in `[lo, hi]`. */
  predicate Within(input: seq<int>, k: Kernel, ch: int, lo: int, hi: int)
  {
    forall i :: 0 <= i < |k.idx| ==> lo <= Tap(input, k, ch, i) <= hi
  }

  predicate NonNegative(w: seq<real>)
  {
    forall i :: 0 <= i < |w| ==> w[i] >= 0.0
  }

  lemma {:induction false} DotIsBounded(input: seq<int>, k: Kernel, ch: int, lo: int, hi: int, n: nat)
    requires |k.w| == |k.idx| && n <= |k.idx| && Within(input, k, ch, lo, hi)
    requires NonNegative(k.w)
    ensures lo as real * Sum(k.w[..n]) <= Dot(input, k, ch, n) <= hi as real * Sum(k.w[..n])
  {
    if n > 0 {
      DotIsBounded(input, k, ch, lo, hi, n - 1);
      DotStaysBounded(input, k, ch, lo, hi, n);
    } else {
      DotOfNoTaps(input, k, ch, lo as real, hi as real);
    }
  }

  lemma DotOfNoTaps(input: seq<int>, k: Kernel, ch: int, lo: real, hi: real)
    ensures lo * Sum(k.w[..0]) <= Dot(input, k, ch, 0) <= hi * Sum(k.w[..0])
  {
    assert k.w[..0] == [];
  }

  lemma DotStaysBounded(input: seq<int>, k: Kernel, ch: int, lo: int, hi: int, n: nat)
    requires |k.w| == |k.idx| && 0 < n <= |k.idx| && Within(input, k, ch, lo, hi) && NonNegative(k.w)
    requires lo as real * Sum(k.w[..n - 1]) <= Dot(input, k, ch, n - 1) <= hi as real * Sum(k.w[..n - 1])
    ensures lo as real * Sum(k.w[..n]) <= Dot(input, k, ch, n) <= hi as real * Sum(k.w[..n])
  {
    assert k.w[..n][..n - 1] == k.w[..n - 1];
    assert lo <= Tap(input, k, ch, n - 1) <= hi && k.w[n - 1] >= 0.0;
    assert Sum(k.w[..n]) == Sum(k.w[..n - 1]) + k.w[n - 1];
    BoundStep(lo as real, hi as real, Tap(input, k, ch, n - 1) as real, k.w[n - 1],
              Sum(k.w[..n - 1]), Sum(k.w[..n]), Dot(input, k, ch, n - 1), Dot(input, k, ch, n));
  }

  /** Adding a tap whose sample lies in `[lo, hi]` with a non-negative weight keeps the sum within the bounds. */
  lemma BoundStep(lo: real, hi: real, v: real, w: real, total: real, total': real, dot: real, dot': real)
    requires lo * total <= dot <= hi * total && lo <= v <= hi && w >= 0.0 && total' == total + w && dot' == dot + v * w
    ensures lo * total' <= dot' <= hi * total'
  {
    MulRealMonotone(lo, v, w);
    MulRealMonotone(v, hi, w);
    assert lo * (total + w) == lo * total + lo * w;
    assert hi * (total + w) == hi * total + hi * w;
  }

  /**
   * No overshoot with non-negative weights that sum to one (Box, Triangle,
   * Hermite): the result lies between the smallest and the largest tap, so
   * the narrowing to a short never wraps.
   */
  lemma NonNegativeWeightsDoNotOvershoot(input: seq<int>, k: Kernel, c: int, ch: int, lo: int, hi: int)
    requires Fits(k, c, |input|) && 0 <= ch < c && Within(input, k, ch, lo, hi)
    requires NonNegative(k.w) && Sum(k.w) == 1.0 && IsShort(lo) && IsShort(hi)
    ensures lo <= Sample(input, k, ch) <= hi
  {
    DotIsBounded(input, k, ch, lo, hi, |k.idx|);
    assert k.w[..|k.idx|] == k.w;
  }

  /** A weight of one on tap `p` and zero elsewhere copies the sample that tap reads. */
  lemma {:induction false} UnitKernelCopies(input: seq<int>, k: Kernel, c: int, ch: int, p: nat, n: nat)
    requires Fits(k, c, |input|) && 0 <= ch < c && p < |k.idx| && n <= |k.idx|
    requires forall i :: 0 <= i < |k.w| ==> k.w[i] == if i == p then 1.0 else 0.0
    ensures Dot(input, k, ch, n) == if p < n then input[k.base + k.idx[p] + ch] as real else 0.0
  {
    if n > 0 {
      UnitKernelCopies(input, k, c, ch, p, n - 1);
    }
  }

  /** The horizontal kernels of the tables of axis `a` read inside an input of `len` samples. */
  lemma {:induction false} HorizontalKernelFits(a: Axis, c: int, y: nat, x: int, len: int)
    requires a.Valid() && a.pixelStride == c && c >= 1 && 0 <= x < a.dstSize
    requires (y + 1) * a.srcSize * c <= len
    ensures Fits(KernelAt(Horizontal(a.srcSize), Expected(a), c, y, x), c, len)
  {
    var n := NumSamples(a.curve, a.scale);
    var d := Expected(a);
    MulMonotone(x + 1, a.dstSize, n);
    MulMonotone(0, x, n);
    var k := KernelAt(Horizontal(a.srcSize), d, c, y, x);
    assert k.idx == d.indicesX[x * n..x * n + n];
    forall i | 0 <= i < |k.idx|
      ensures 0 <= k.base + k.idx[i] && k.base + k.idx[i] + c <= len
    {
      assert k.idx[i] == d.indicesX[x * n + i];
      HorizontalTapFits(a, c, y, x, i, len);
    }
  }

  /** Tap `i` of the horizontal kernel of output pixel `x` in row `y`. */
  lemma HorizontalTapFits(a: Axis, c: int, y: nat, x: int, i: int, len: int)
    requires a.Valid() && a.pixelStride == c && c >= 1 && 0 <= x < a.dstSize
    requires 0 <= i < NumSamples(a.curve, a.scale) && (y + 1) * a.srcSize * c <= len
    ensures var j := x * NumSamples(a.curve, a.scale) + i;
            0 <= j < |Expected(a).indicesX| &&
            0 <= a.srcSize * y * c + Expected(a).indicesX[j] &&
            a.srcSize * y * c + Expected(a).indicesX[j] + c <= len
  {
    var n := NumSamples(a.curve, a.scale);
    FlatPosition(x, i, n, a.dstSize);
    assert Expected(a).indicesX[x * n + i] == SampleIndex(a, x, i);
    IndicesAddressSourcePixels(a, x, i);
    HorizontalBound(a.srcSize, y, c, SampleIndex(a, x, i));
  }

  /**
   * The sampling tables of the horizontal axis, built with the channel count
   * as pixel stride, never make a horizontal worker read outside its input.
   */
  lemma HorizontalTablesFit(a: Axis, c: int, begin: nat, end: nat, len: int)
    requires a.Valid() && a.pixelStride == c && c >= 1 && begin <= end
    requires end * a.srcSize * c <= len
    ensures AllFit(Kernels(Horizontal(a.srcSize), Expected(a), c), c, a.dstSize, begin, end, len)
  {
    forall y, x | begin <= y < end && 0 <= x < a.dstSize
      ensures Fits(Kernels(Horizontal(a.srcSize), Expected(a), c)(y, x), c, len)
    {
      MulMonotone(y + 1, end, a.srcSize);
      MulMonotone((y + 1) * a.srcSize, end * a.srcSize, c);
      HorizontalKernelFits(a, c, y, x, len);
    }
  }

  /** The vertical kernels of the tables of axis `b` read inside an input of `len` samples. */
  lemma {:induction false} VerticalKernelFits(b: Axis, c: int, width: nat, y: int, x: int, len: int)
    requires b.Valid() && b.pixelStride == c * width && c >= 1 && 0 <= y < b.dstSize && 0 <= x < width
    requires b.srcSize * width * c <= len
    ensures Fits(KernelAt(Vertical, Expected(b), c, y, x), c, len)
  {
    var n := NumSamples(b.curve, b.scale);
    var d := Expected(b);
    var k := KernelAt(Vertical, d, c, y, x);
    assert k.idx == d.indicesY[y] && |k.idx| == n;
    forall i | 0 <= i < |k.idx|
      ensures 0 <= k.base + k.idx[i] && k.base + k.idx[i] + c <= len
    {
      assert k.idx[i] == SampleIndex(b, y, i);
      IndicesAddressSourcePixels(b, y, i);
      VerticalBound(b.srcSize, width, c, x, k.idx[i]);
    }
  }

  /**
   * The sampling tables of the vertical axis, built with a whole row of
   * samples as pixel stride, never make a vertical worker read outside its input.
   */
  lemma VerticalTablesFit(b: Axis, c: int, width: nat, begin: nat, end: nat, len: int)
    requires b.Valid() && b.pixelStride == c * width && c >= 1 && begin <= end <= b.dstSize
    requires b.srcSize * width * c <= len
    ensures AllFit(Kernels(Vertical, Expected(b), c), c, width, begin, end, len)
  {
    forall y, x | begin <= y < end && 0 <= x < width
      ensures Fits(Kernels(Vertical, Expected(b), c)(y, x), c, len)
    {
      VerticalKernelFits(b, c, width, y, x, len);
    }
  }

  /** Row `y` of a `srcSize`-wide image starts at `srcSize * y * c` and a pixel of it at most `(srcSize - 1) * c` later. */
  lemma HorizontalBound(srcSize: int, y: nat, c: int, idx: int)
    requires srcSize >= 1 && c >= 1 && 0 <= idx <= (srcSize - 1) * c
    ensures 0 <= srcSize * y * c + idx && srcSize * y * c + idx + c <= (y + 1) * srcSize * c
  {
    MulMonotone(0, y, srcSize);
    MulMonotone(0, y * srcSize, c);
    assert srcSize * y * c == y * srcSize * c;
    assert (srcSize - 1) * c + c == srcSize * c;
    assert (y + 1) * srcSize * c == y * srcSize * c + srcSize * c;
  }

  /** Column `x` of a row of `width` pixels, plus whole rows up to the last of `srcSize`, stays inside the image. */
  lemma VerticalBound(srcSize: int, width: int, c: int, x: int, idx: int)
    requires srcSize >= 1 && c >= 1 && 0 <= x < width && 0 <= idx <= (srcSize - 1) * (c * width)
    ensures 0 <= x * c + idx && x * c + idx + c <= srcSize * width * c
  {
    MulMonotone(0, x, c);
    MulMonotone(x + 1, width, c);
    assert (srcSize - 1) * (c * width) + width * c == srcSize * width * c;
  }
}
