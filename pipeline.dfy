/**
 * How `ImageResamplerShort.resize` organises the work: which axes to resample
 * and in which order, the intermediate buffer, the sampling tables of each
 * axis, the stripes of rows each worker handles, and the layered dependency
 * queue that runs the workers.
 */
module ResamplePipeline {
  import opened Java
  import opened Wrappers
  import opened Curves
  import opened Sampling
  import opened WorkerQueue

  datatype ResamplingOrder = NONE | X_ONLY | Y_ONLY | X_FIRST | Y_FIRST

  /** The sizes and offsets of one resize, and the window sizes of both axes. */
  datatype Geometry = Geometry(srcWidth: int, srcHeight: int, dstWidth: int, dstHeight: int,
                               offsetX: real, offsetY: real, numSamplesX: int, numSamplesY: int)

  predicate ChangesX(g: Geometry) { g.srcWidth != g.dstWidth || g.offsetX != 0.0 }
  predicate ChangesY(g: Geometry) { g.srcHeight != g.dstHeight || g.offsetY != 0.0 }

  /** The cost of resampling horizontally first: every source row, then every destination row; +1 per store. */
  function EffortXFirst(g: Geometry): int
  {
    g.srcHeight * g.dstWidth * (g.numSamplesX + 1) + g.dstWidth * g.dstHeight * (g.numSamplesY + 1)
  }

  /** The cost of resampling vertically first. */
  function EffortYFirst(g: Geometry): int
  {
    g.srcWidth * g.dstHeight * (g.numSamplesY + 1) + g.dstHeight * g.dstWidth * (g.numSamplesX + 1)
  }

  /** `determineResampleOrder` */
  function DetermineResampleOrder(g: Geometry): (o: ResamplingOrder)
    ensures ResamplesX(o) <==> ChangesX(g)
    ensures ResamplesY(o) <==> ChangesY(g)
  {
    var doX := ChangesX(g);
    var doY := ChangesY(g);
    if !doX && !doY then NONE
    else if !doY then X_ONLY
    else if !doX then Y_ONLY
    else if EffortXFirst(g) <= EffortYFirst(g) then X_FIRST
    else Y_FIRST
  }

  predicate ResamplesX(o: ResamplingOrder) { o.X_ONLY? || o.X_FIRST? || o.Y_FIRST? }
  predicate ResamplesY(o: ResamplingOrder) { o.Y_ONLY? || o.X_FIRST? || o.Y_FIRST? }

  /** The work an order does: one pass per axis it resamples, on the buffer that pass sees. */
  function Effort(o: ResamplingOrder, g: Geometry): int
  {
    match o
    case NONE => 0
    case X_ONLY => g.srcHeight * g.dstWidth * (g.numSamplesX + 1)
    case Y_ONLY => g.srcWidth * g.dstHeight * (g.numSamplesY + 1)
    case X_FIRST => EffortXFirst(g)
    case Y_FIRST => EffortYFirst(g)
  }

  /**
   * The order resamples exactly the axes that change (so nothing at all, and
   * `resize` returns its input, exactly when both sizes stay and both offsets
   * are zero), and of the two orders that resample both axes it takes the
   * cheaper one, horizontal first on a tie.
   */
  lemma ResampleOrderIsMinimal(g: Geometry)
    ensures var o := DetermineResampleOrder(g);
      (ResamplesX(o) <==> ChangesX(g)) && (ResamplesY(o) <==> ChangesY(g)) &&
      (o.NONE? <==> g.srcWidth == g.dstWidth && g.srcHeight == g.dstHeight && g.offsetX == 0.0 && g.offsetY == 0.0) &&
      (ResamplesX(o) && ResamplesY(o) ==>
        Effort(o, g) <= Effort(X_FIRST, g) && Effort(o, g) <= Effort(Y_FIRST, g) &&
        (Effort(X_FIRST, g) == Effort(Y_FIRST, g) ==> o.X_FIRST?))
  {
  }

  /**
   * `makeWorkBuffer`: no buffer when one pass suffices, otherwise one holding
   * the output of the first pass; an order without passes is an assertion failure.
   */
  function MakeWorkBuffer(o: ResamplingOrder, g: Geometry, c: int): (r: Result<Option<int>>)
    ensures r.Failure? <==> o.NONE?
    ensures o.X_ONLY? || o.Y_ONLY? ==> r == Success(None)
    ensures o.X_FIRST? || o.Y_FIRST? ==> r.Success? && r.value.Some?
  {
    match o
    case X_ONLY => Success(None)
    case Y_ONLY => Success(None)
    case X_FIRST => Success(Some(g.dstWidth * g.srcHeight * c))
    case Y_FIRST => Success(Some(g.srcWidth * g.dstHeight * c))
    case NONE => Failure("AssertionError")
  }

  /** The tables of one resize: one axis per pass, the vertical one striding a whole row of its input. */
  datatype Tables = Tables(horizontal: Option<Axis>, vertical: Option<Axis>)

  /** `preCalculateSubSampling` */
  function PreCalculateSubSampling(o: ResamplingOrder, g: Geometry, curve: Curve, sin: real -> real,
                                   widthScale: real, heightScale: real, c: int): (r: Result<Tables>)
    ensures r.Failure? <==> o.NONE?
  {
    var h := Axis(curve, sin, g.srcWidth, g.dstWidth, widthScale, g.offsetX, c);
    match o
    case X_ONLY => Success(Tables(Some(h), None))
    case Y_ONLY =>
      Success(Tables(None, Some(Axis(curve, sin, g.srcHeight, g.dstHeight, heightScale, g.offsetY, c * g.srcWidth))))
    case X_FIRST =>
      Success(Tables(Some(h), Some(Axis(curve, sin, g.srcHeight, g.dstHeight, heightScale, g.offsetY, c * g.dstWidth))))
    case Y_FIRST =>
      Success(Tables(Some(h), Some(Axis(curve, sin, g.srcHeight, g.dstHeight, heightScale, g.offsetY, c * g.srcWidth))))
    case NONE => Failure("AssertionError")
  }

  /**
   * The tables suit the passes: there is a horizontal table exactly when the
   * order resamples horizontally, with the channel count as stride, and a
   * vertical one exactly when it resamples vertically, striding a whole row of
   * the buffer the vertical pass reads (source width when it runs first,
   * destination width when it runs second).  The work buffer holds the output
   * of the first pass, which is the input of the second.
   */
  lemma TablesSuitPasses(o: ResamplingOrder, g: Geometry, curve: Curve, sin: real -> real,
                         widthScale: real, heightScale: real, c: int)
    requires !o.NONE?
    ensures var t := PreCalculateSubSampling(o, g, curve, sin, widthScale, heightScale, c).value;
      (t.horizontal.Some? <==> ResamplesX(o)) && (t.vertical.Some? <==> ResamplesY(o)) &&
      (t.horizontal.Some? ==> t.horizontal.value.pixelStride == c &&
                              t.horizontal.value.srcSize == g.srcWidth && t.horizontal.value.dstSize == g.dstWidth) &&
      (t.vertical.Some? ==> t.vertical.value.srcSize == g.srcHeight && t.vertical.value.dstSize == g.dstHeight &&
                            t.vertical.value.pixelStride == c * (if o.X_FIRST? then g.dstWidth else g.srcWidth))
    ensures o.X_FIRST? ==> MakeWorkBuffer(o, g, c) == Success(Some(g.srcHeight * g.dstWidth * c))
    ensures o.Y_FIRST? ==> MakeWorkBuffer(o, g, c) == Success(Some(g.dstHeight * g.srcWidth * c))
  {
  }

  /** `getNumThreads() == 0 ? AVAILABLE_PROCESSORS : getNumThreads()` */
  function NumStrips(numThreads: nat, processors: nat): nat
  {
    if numThreads == 0 then processors else numThreads
  }

  /** The first row of stripe `i` of `n` over `height` rows: `i * height / n`. */
  function StripeStart(i: nat, height: nat, n: nat): (s: nat)
    requires n > 0
    ensures i <= n ==> s <= height
  {
    if i <= n then
      MulMonotone(i, n, height);
      DivIsMonotone(i * height, n * height, n);
      DivModOfMultiple(height, 0, n);
      assert n * height == height * n;
      i * height / n
    else i * height / n
  }

  /** The stripes run from row 0 to row `height`, each starting where the previous one ends. */
  lemma {:induction false} StripesCover(i: nat, j: nat, height: nat, n: nat)
    requires n > 0 && i <= j
    ensures StripeStart(0, height, n) == 0 && StripeStart(n, height, n) == height
    ensures StripeStart(i, height, n) <= StripeStart(j, height, n)
  {
    MulMonotone(i, j, height);
    DivIsMonotone(i * height, j * height, n);
    DivModOfMultiple(height, 0, n);
    assert n * height == height * n;
  }

  lemma {:induction false} DivIsMonotone(x: nat, y: nat, n: nat)
    requires x <= y && n > 0
    ensures x / n <= y / n
  {
    if x / n > y / n {
      MulIsMonotone(y / n + 1, x / n, n);
    }
  }

  /** The buffers of a resize. */
  datatype Buffer = SrcPixels | SrcBuffer | WorkBuffer | DstBuffer | DstPixels

  /** The four kinds of worker and the rows each handles. */
  datatype Worker =
    | PreConvert(begin: int, end: int)
    | HorizontalResample(input: Buffer, output: Buffer, begin: int, end: int)
    | VerticalResample(input: Buffer, output: Buffer, begin: int, end: int, width: int)
    | PostConvert(begin: int, end: int)

  /** The two resampling workers of stripe `[srcBegin, srcEnd)` / `[dstBegin, dstEnd)` for an order. */
  function ResampleSteps(o: ResamplingOrder, g: Geometry, srcBegin: int, srcEnd: int,
                         dstBegin: int, dstEnd: int): (steps: seq<Worker>)
    ensures |steps| == (if ResamplesX(o) then 1 else 0) + (if ResamplesY(o) then 1 else 0)
    ensures forall w :: w in steps ==> w.HorizontalResample? || w.VerticalResample?
    ensures |steps| == 1 ==> (steps[0].HorizontalResample? <==> ResamplesX(o))
    ensures |steps| == 2 ==> (steps[0].HorizontalResample? <==> o.X_FIRST?) && steps[1].HorizontalResample? == o.Y_FIRST?
    ensures |steps| > 0 ==> steps[0].input == SrcBuffer && steps[|steps| - 1].output == DstBuffer
    ensures |steps| == 2 ==> steps[0].output == steps[1].input == WorkBuffer
  {
    match o
    case X_ONLY => [HorizontalResample(SrcBuffer, DstBuffer, dstBegin, dstEnd)]
    case Y_ONLY => [VerticalResample(SrcBuffer, DstBuffer, dstBegin, dstEnd, g.srcWidth)]
    case X_FIRST => [HorizontalResample(SrcBuffer, WorkBuffer, srcBegin, srcEnd),
                     VerticalResample(WorkBuffer, DstBuffer, dstBegin, dstEnd, g.dstWidth)]
    case Y_FIRST => [VerticalResample(SrcBuffer, WorkBuffer, dstBegin, dstEnd, g.srcWidth),
                     HorizontalResample(WorkBuffer, DstBuffer, dstBegin, dstEnd)]
    case NONE => []
  }

  /** The number of layers of an order: pre-conversion, one or two resampling passes, post-conversion. */
  function Depth(o: ResamplingOrder): nat
  {
    if o.X_ONLY? || o.Y_ONLY? then 3 else 4
  }

  /** Worker `k` (in layer order) of stripe `i` of `n`. */
  function StripeWorker(o: ResamplingOrder, g: Geometry, i: nat, n: nat, k: nat): Worker
    requires n > 0 && g.srcHeight >= 0 && g.dstHeight >= 0 && !o.NONE? && k < Depth(o)
  {
    var srcBegin, srcEnd := StripeStart(i, g.srcHeight, n), StripeStart(i + 1, g.srcHeight, n);
    var dstBegin, dstEnd := StripeStart(i, g.dstHeight, n), StripeStart(i + 1, g.dstHeight, n);
    if k == 0 then PreConvert(srcBegin, srcEnd)
    else if k == Depth(o) - 1 then PostConvert(dstBegin, dstEnd)
    else ResampleSteps(o, g, srcBegin, srcEnd, dstBegin, dstEnd)[k - 1]
  }

  /** Worker `k` of the first `len` stripes. */
  function Layer(o: ResamplingOrder, g: Geometry, n: nat, k: nat, len: nat): (layer: seq<Worker>)
    requires n > 0 && g.srcHeight >= 0 && g.dstHeight >= 0 && !o.NONE? && k < Depth(o)
    ensures |layer| == len
  {
    seq(len, i requires 0 <= i < len => StripeWorker(o, g, i, n, k))
  }

  lemma LayerGrows(o: ResamplingOrder, g: Geometry, n: nat, k: nat, len: nat)
    requires n > 0 && g.srcHeight >= 0 && g.dstHeight >= 0 && !o.NONE? && k < Depth(o)
    ensures Layer(o, g, n, k, len + 1) == Layer(o, g, n, k, len) + [StripeWorker(o, g, len, n, k)]
  {
  }

  /** The layers `makeWorkerLists` returns: layer `k` holds worker `k` of every stripe, in stripe order. */
  function ExpectedLayers(o: ResamplingOrder, g: Geometry, n: nat): (layers: seq<seq<Worker>>)
    requires n > 0 && g.srcHeight >= 0 && g.dstHeight >= 0 && !o.NONE?
    ensures |layers| == Depth(o)
  {
    seq(Depth(o), k requires 0 <= k < Depth(o) => Layer(o, g, n, k, n))
  }

  /** `makeWorkerLists`: one worker per stripe and step, collected layer by layer. */
  method MakeWorkerLists(o: ResamplingOrder, g: Geometry, n: nat) returns (r: Result<seq<seq<Worker>>>)
    requires n > 0 && g.srcHeight >= 0 && g.dstHeight >= 0
    ensures r.Failure? <==> o.NONE?
    ensures r.Success? ==> r.value == ExpectedLayers(o, g, n)
  {
    if o.NONE? {
      return Failure("AssertionError");
    }
    var two := Depth(o) == 4;
    var pre, step1, step2, post := [], [], [], [];
    var i := 0;
    while i < n
      invariant 0 <= i <= n
      invariant pre == Layer(o, g, n, 0, i) && step1 == Layer(o, g, n, 1, i)
      invariant step2 == if two then Layer(o, g, n, 2, i) else []
      invariant post == Layer(o, g, n, Depth(o) - 1, i)
    {
      var srcBegin, srcEnd := i * g.srcHeight / n, (i + 1) * g.srcHeight / n;
      var dstBegin, dstEnd := i * g.dstHeight / n, (i + 1) * g.dstHeight / n;
      var steps := ResampleSteps(o, g, srcBegin, srcEnd, dstBegin, dstEnd);
      LayerGrows(o, g, n, 0, i);
      LayerGrows(o, g, n, 1, i);
      LayerGrows(o, g, n, Depth(o) - 1, i);
      pre := pre + [PreConvert(srcBegin, srcEnd)];
      step1 := step1 + [steps[0]];
      if |steps| == 2 {
        LayerGrows(o, g, n, 2, i);
        step2 := step2 + [steps[1]];
      }
      post := post + [PostConvert(dstBegin, dstEnd)];
      i := i + 1;
    }
    if |step2| == 0 {
      r := Success([pre, step1, post]);
    } else {
      r := Success([pre, step1, step2, post]);
    }
  }

  /** The samples a worker writes: its buffer and a range of rows of the rows' length in samples. */
  datatype Region = Region(buffer: Buffer, lo: int, hi: int)

  /**
   * The region written by a worker of an image with `c` channels: converters
   * work on rows of the source (pre) or destination (post) width; horizontal
   * passes write rows of the destination width; vertical passes rows of the
   * width they are given.
   */
  function Writes(w: Worker, g: Geometry, c: int): Region
  {
    match w
    case PreConvert(b, e) => Region(SrcBuffer, b * g.srcWidth * c, e * g.srcWidth * c)
    case HorizontalResample(_, out, b, e) => Region(out, b * g.dstWidth * c, e * g.dstWidth * c)
    case VerticalResample(_, out, b, e, width) => Region(out, b * width * c, e * width * c)
    case PostConvert(b, e) => Region(DstPixels, b * g.dstWidth * c, e * g.dstWidth * c)
  }

  /**
   * Workers of one layer write disjoint parts of one buffer, in stripe order,
   * and together the whole of it: so the workers of a layer never collide.
   */
  lemma {:induction false} LayerWritesAreDisjoint(o: ResamplingOrder, g: Geometry, n: nat, c: nat, k: nat, i: nat, j: nat)
    requires n > 0 && g.srcHeight >= 0 && g.dstHeight >= 0 && g.srcWidth >= 0 && g.dstWidth >= 0 && !o.NONE?
    requires k < |ExpectedLayers(o, g, n)| && i < j < n
    ensures var layer := ExpectedLayers(o, g, n)[k];
      Writes(layer[i], g, c).buffer == Writes(layer[j], g, c).buffer &&
      Writes(layer[i], g, c).lo <= Writes(layer[i], g, c).hi <= Writes(layer[j], g, c).lo <= Writes(layer[j], g, c).hi
  {
    var layer := ExpectedLayers(o, g, n)[k];
    StripesCover(i, i + 1, g.srcHeight, n);
    StripesCover(i + 1, j, g.srcHeight, n);
    StripesCover(j, j + 1, g.srcHeight, n);
    StripesCover(i, i + 1, g.dstHeight, n);
    StripesCover(i + 1, j, g.dstHeight, n);
    StripesCover(j, j + 1, g.dstHeight, n);
    var wi, wj := layer[i], layer[j];
    assert wi == StripeWorker(o, g, i, n, k) && wj == StripeWorker(o, g, j, n, k);
    var width := RowLength(wi, g);
    assert RowLength(wj, g) == width;
    RowsAreOrdered(StartRow(wi), EndRow(wi), StartRow(wj), EndRow(wj), width, c);
  }

  function StartRow(w: Worker): int { w.begin }
  function EndRow(w: Worker): int { w.end }

  /** The length of the rows a worker writes, in pixels. */
  function RowLength(w: Worker, g: Geometry): int
  {
    match w
    case PreConvert(_, _) => g.srcWidth
    case HorizontalResample(_, _, _, _) => g.dstWidth
    case VerticalResample(_, _, _, _, width) => width
    case PostConvert(_, _) => g.dstWidth
  }

  lemma RowsAreOrdered(b1: int, e1: int, b2: int, e2: int, width: nat, c: nat)
    requires b1 <= e1 <= b2 <= e2
    ensures b1 * width * c <= e1 * width * c <= b2 * width * c <= e2 * width * c
  {
    MulIsMonotone(b1, e1, width);
    MulIsMonotone(e1, b2, width);
    MulIsMonotone(b2, e2, width);
    MulIsMonotone(b1 * width, e1 * width, c);
    MulIsMonotone(e1 * width, b2 * width, c);
    MulIsMonotone(b2 * width, e2 * width, c);
  }

  /** Stripe 0 starts at row 0 and stripe `n - 1` ends at the last row of the buffer its layer writes. */
  lemma LayerCoversBuffer(o: ResamplingOrder, g: Geometry, n: nat, c: nat, k: nat)
    requires n > 0 && g.srcHeight >= 0 && g.dstHeight >= 0 && !o.NONE?
    requires k < |ExpectedLayers(o, g, n)|
    ensures var layer := ExpectedLayers(o, g, n)[k];
      Writes(layer[0], g, c).lo == 0 &&
      Writes(layer[n - 1], g, c).hi == (if layer[n - 1].PreConvert? || (o.X_FIRST? && k == 1) then g.srcHeight else g.dstHeight)
                                       * RowLength(layer[n - 1], g) * c
  {
    StripesCover(0, n, g.srcHeight, n);
    StripesCover(0, n, g.dstHeight, n);
    var layer := ExpectedLayers(o, g, n)[k];
    assert layer[0] == StripeWorker(o, g, 0, n, k);
    assert layer[n - 1] == StripeWorker(o, g, n - 1, n, k);
  }

  /**
   * Each layer reads what the layer before it wrote: the input of a resampling
   * worker is the output buffer of the workers one layer up, the first
   * resampling layer reads the pre-converted source and the last one writes
   * the buffer the post-converters read.
   */
  lemma LayersChainBuffers(o: ResamplingOrder, g: Geometry, n: nat, k: nat, i: nat)
    requires n > 0 && g.srcHeight >= 0 && g.dstHeight >= 0 && !o.NONE?
    requires 0 < k < |ExpectedLayers(o, g, n)| - 1 && i < n
    ensures var layers := ExpectedLayers(o, g, n);
      var w := layers[k][i];
      (w.HorizontalResample? || w.VerticalResample?) &&
      w.input == (if k == 1 then SrcBuffer else Writes(layers[k - 1][i], g, 1).buffer) &&
      (k == |layers| - 2 ==> w.output == DstBuffer) &&
      (k < |layers| - 2 ==> w.output == WorkBuffer)
  {
    var layers := ExpectedLayers(o, g, n);
    assert layers[k][i] == StripeWorker(o, g, i, n, k);
    assert layers[k - 1][i] == StripeWorker(o, g, i, n, k - 1);
  }

  /** A worker in the queue: its layer, its stripe and what it does. */
  datatype Job = Job(layer: nat, strip: nat, worker: Worker)

  function Jobs(layers: seq<seq<Worker>>, k: nat): (js: seq<Job>)
    requires k < |layers|
    ensures |js| == |layers[k]|
  {
    seq(|layers[k]|, j requires 0 <= j < |layers[k]| => Job(k, j, layers[k][j]))
  }

  /** The workers of the previous layer within `width` stripes of stripe `j`, in stripe order. */
  function Dependencies(layers: seq<seq<Worker>>, k: nat, j: int, width: int): (deps: seq<Job>)
    requires 0 < k < |layers|
    ensures forall m :: 0 <= m < |deps| ==>
      deps[m].layer == k - 1 && j - width <= deps[m].strip <= j + width &&
      deps[m].strip < |layers[k - 1]| && deps[m].worker == layers[k - 1][deps[m].strip]
    ensures forall m :: 0 < m < |deps| ==> deps[m].strip == deps[m - 1].strip + 1
  {
    var js := Jobs(layers, k - 1);
    assert forall m :: 0 <= m < |js| ==> js[m].strip == m;
    Window(js, j - width, j + width + 1)
  }

  function Clip(x: int, len: nat): (r: nat)
    ensures r <= len
  {
    if x < 0 then 0 else if x > len then len else x
  }

  /** The elements of `s` at the positions in `[a, b)` that exist. */
  function Window<T>(s: seq<T>, a: int, b: int): seq<T>
  {
    var lo, hi := Clip(a, |s|), Clip(b, |s|);
    if lo <= hi then s[lo..hi] else []
  }

  /** The blocked lists of layers `1..k-1`, plus the first `j` of layer `k`. */
  function BlockedUpTo(layers: seq<seq<Worker>>, n: nat, k: nat, j: nat): seq<seq<Job>>
    requires 1 <= k <= |layers| && j <= n && (k < |layers| ==> n <= |layers[k]|) && (k == |layers| ==> j == 0)
    requires forall m :: 1 <= m < k ==> n <= |layers[m]|
    decreases k, j
  {
    if j > 0 then
      BlockedUpTo(layers, n, k, j - 1) + [[Job(k, j - 1, layers[k][j - 1])] + Dependencies(layers, k, j - 1, n)]
    else if k == 1 then []
    else BlockedUpTo(layers, n, k - 1, n)
  }

  /** `makeResampleQueue`: the first layer eligible at once, every later worker blocked on its neighbours. */
  method MakeResampleQueue(layers: seq<seq<Worker>>, n: nat) returns (q: DependentWorkerQueue<Job>)
    requires |layers| >= 1 && forall m :: 1 <= m < |layers| ==> n <= |layers[m]|
    ensures fresh(q)
    ensures q.eligible == Jobs(layers, 0)
    ensures q.blocked == BlockedUpTo(layers, n, |layers|, 0)
  {
    q := new DependentWorkerQueue();
    var k := 0;
    while k < |layers[0]|
      invariant 0 <= k <= |layers[0]|
      invariant q.eligible == Jobs(layers, 0)[..k] && q.blocked == []
    {
      q.AddWorker(Job(0, k, layers[0][k]));
      assert Jobs(layers, 0)[..k + 1] == Jobs(layers, 0)[..k] + [Job(0, k, layers[0][k])];
      k := k + 1;
    }
    assert Jobs(layers, 0)[..k] == Jobs(layers, 0);
    var i := 1;
    while i < |layers|
      invariant 1 <= i <= |layers|
      invariant q.eligible == Jobs(layers, 0) && q.blocked == BlockedUpTo(layers, n, i, 0)
    {
      var j := 0;
      while j < n
        invariant 0 <= j <= n
        invariant q.eligible == Jobs(layers, 0) && q.blocked == BlockedUpTo(layers, n, i, j)
      {
        var deps := CollectDependencies(layers, i, j, n);
        q.AddWorkerAfter(Job(i, j, layers[i][j]), deps);
        j := j + 1;
      }
      i := i + 1;
    }
  }

  /** The inner loop of `makeResampleQueue`: the neighbours `k` in `[j - width, j + width]` that exist. */
  method CollectDependencies(layers: seq<seq<Worker>>, i: nat, j: int, width: int) returns (deps: seq<Job>)
    requires 0 < i < |layers|
    ensures deps == Dependencies(layers, i, j, width)
  {
    var prev := Jobs(layers, i - 1);
    deps := [];
    var k := j - width;
    while k <= j + width
      invariant j - width <= k && (k <= j + width + 1 || k == j - width)
      invariant deps == Window(prev, j - width, k)
    {
      if k >= 0 && k < |prev| {
        assert Window(prev, j - width, k + 1) == Window(prev, j - width, k) + [prev[k]];
        deps := deps + [prev[k]];
      }
      k := k + 1;
    }
  }

  /**
   * Because the neighbourhood is as wide as the number of stripes, every
   * worker past the first layer waits for the whole previous layer.
   */
  lemma DependenciesAreWholeLayer(layers: seq<seq<Worker>>, k: nat, j: nat, n: nat)
    requires 0 < k < |layers| && |layers[k - 1]| == n && j < n
    ensures Dependencies(layers, k, j, n) == Jobs(layers, k - 1)
  {
  }
}
