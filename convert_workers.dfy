/**
 * The first and last steps of the resampler: converting the source bytes of a
 * stripe of rows to levels (`PreConvertWorker`) and the resampled levels back
 * to bytes (`PostConvertWorker`).  Which conversion runs depends on the colour
 * settings; the variants with a separate alpha channel need two or four
 * channels per pixel (alpha first) and fail otherwise.
 *
 * Each conversion loop is written once, generic in its per-sample function:
 * `ConvertSamples` for the variants that treat every sample alike and
 * `ConvertPixels` for those that treat the alpha sample of a pixel apart.
 */
module ConvertWorkers {
  import opened Java
  import opened Wrappers
  import opened PixelCodec
  import opened SrgbTables

  /** The colour settings of the source image and of the resampler. */
  datatype ColorFlags = ColorFlags(srcIsSRGB: bool, ignoreSRGB: bool, hasAlpha: bool,
                                   srcIsPreAlpha: bool, dontPreAlpha: bool)

  /**
   * The five conversions, each a pair of a pre-conversion and the
   * post-conversion that undoes it.
   */
  datatype Conversion =
    | Plain                   // preConvert / postConvert
    | AlphaPremultiplied      // preConvertAlphaPremultiply / postConvertAlphaUnPremultiply
    | SRGB                    // preConvertSRGB / postConvertSRGB
    | SRGBAlpha               // preConvertSRGBAlpha / postConvertSRGBAlpha
    | SRGBAlphaPremultiplied  // preConvertSRGBAlphaPremultiply / postConvertSRGBAlphaUnPremultiply

  predicate Linearizes(c: Conversion) { c.SRGB? || c.SRGBAlpha? || c.SRGBAlphaPremultiplied? }
  predicate Premultiplies(c: Conversion) { c.AlphaPremultiplied? || c.SRGBAlphaPremultiplied? }
  /** The variants that read pixels as an alpha sample followed by colour samples. */
  predicate NeedsAlphaLayout(c: Conversion) { c.AlphaPremultiplied? || c.SRGBAlpha? || c.SRGBAlphaPremultiplied? }

  /** The decision tree of `PreConvertWorker.call`. */
  function SelectPreConversion(f: ColorFlags): (c: Conversion)
    ensures Linearizes(c) <==> f.srcIsSRGB && !f.ignoreSRGB
    ensures Premultiplies(c) <==> f.hasAlpha && !f.srcIsPreAlpha && !f.dontPreAlpha
  {
    if !f.srcIsSRGB || f.ignoreSRGB then
      if !f.hasAlpha || f.srcIsPreAlpha || f.dontPreAlpha then Plain else AlphaPremultiplied
    else if !f.hasAlpha then SRGB
    else if f.srcIsPreAlpha || f.dontPreAlpha then SRGBAlpha
    else SRGBAlphaPremultiplied
  }

  /** The decision tree of `PostConvertWorker.call`. */
  function SelectPostConversion(f: ColorFlags): (c: Conversion)
    ensures c == SelectPreConversion(f)
  {
    if !f.srcIsSRGB || f.ignoreSRGB then
      if !f.hasAlpha || f.srcIsPreAlpha || f.dontPreAlpha then Plain else AlphaPremultiplied
    else if !f.hasAlpha then SRGB
    else if f.srcIsPreAlpha || f.dontPreAlpha then SRGBAlpha
    else SRGBAlphaPremultiplied
  }

  /**
   * What the settings ask for: linearise exactly when the source is sRGB and
   * that is not ignored, premultiply exactly when there is a straight alpha
   * channel that is not to be left alone; and the post-conversion undoes the
   * pre-conversion.
   */
  lemma ConversionMeetsSettings(f: ColorFlags)
    ensures Linearizes(SelectPreConversion(f)) <==> f.srcIsSRGB && !f.ignoreSRGB
    ensures Premultiplies(SelectPreConversion(f)) <==> f.hasAlpha && !f.srcIsPreAlpha && !f.dontPreAlpha
    ensures NeedsAlphaLayout(SelectPreConversion(f)) <==>
      f.hasAlpha && (Premultiplies(SelectPreConversion(f)) || Linearizes(SelectPreConversion(f)))
    ensures SelectPostConversion(f) == SelectPreConversion(f)
  {
  }

  /**
   * The level a variant makes of colour sample `b` of a pixel whose alpha byte
   * is `a` (the variants without an alpha channel ignore `a`).
   */
  function EncodeValue(conv: Conversion, t: ValidTables, b: int, a: int): (s: int)
    ensures IsShort(s)
  {
    match conv
    case Plain => EncodeLinear(b)
    case AlphaPremultiplied => Premultiply(b, a)
    case SRGB => t.byteToShort[ToByte(b)]
    case SRGBAlpha => t.byteToShort[ToByte(b)]
    case SRGBAlphaPremultiplied => PremultiplyLevel(t.byteToShort2[ToByte(b)], a)
  }

  /**
   * The level the pre-conversion writes for input sample `k` (pixels have `c`
   * samples): with an alpha channel, the first sample of a pixel is its alpha,
   * encoded linearly, and the others are colours weighed by it.
   */
  function EncodeSample(conv: Conversion, t: ValidTables, input: seq<int>, k: int, c: int): (s: int)
    requires 0 <= k < |input| && c >= 1
    ensures IsShort(s)
  {
    if !NeedsAlphaLayout(conv) then EncodeValue(conv, t, input[k], 0)
    else if k % c == 0 then EncodeLinear(input[k])
    else EncodeValue(conv, t, input[k], input[k - k % c])
  }

  /** `g <= 0 ? 0 : g >= 32640 ? -1 : SHORT2_TO_BYTE_SRGB[g]` */
  function DecodeUnPremultipliedSRGB(g: int, t: ValidTables): (b: int)
    ensures IsByte(b)
    ensures g <= 0 ==> b == 0
    ensures g >= 32640 ==> b == 255
    ensures 0 < g < 32640 ==> b == t.short2ToByte[g]
  {
    if g <= 0 then 0 else if g >= 32640 then 255 else t.short2ToByte[g]
  }

  /**
   * With the tables the initialiser builds, an un-premultiplied level strictly
   * between black and white decodes to the sRGB byte of its fraction of full
   * scale, `g / 32640`.
   */
  lemma DecodeUnPremultipliedSRGBEncodesFraction(pow: (real, real) -> real, rounding: Rounding, g: int)
    requires 0 < g < 32640
    ensures DecodeUnPremultipliedSRGB(g, Expected(pow, rounding)) ==
      ToByte(Round(rounding, ToSRGB(pow, g as real / 32640.0) * 255.0))
  {
    EntriesOfLevel(pow, rounding, g - 16384);
    assert LowShort(g) == g;
    assert LevelFraction(g - 16384) == g as real / 32640.0;
  }

  /**
   * The byte a variant makes of colour level `s` of a pixel whose alpha level
   * is `a` (the variants without an alpha channel ignore `a`).
   */
  function DecodeValue(conv: Conversion, t: ValidTables, s: int, a: int): (b: int)
    ensures IsByte(b)
  {
    match conv
    case Plain => DecodeLinear(s)
    case AlphaPremultiplied => DecodeUnPremultiplied(UnPremultiply(s, AlphaLevel(a)))
    case SRGB => t.shortToByte[LowShort(s)]
    case SRGBAlpha => t.shortToByte[LowShort(s)]
    case SRGBAlphaPremultiplied => DecodeUnPremultipliedSRGB(UnPremultiply(s, AlphaLevel(a)), t)
  }

  /** The byte the post-conversion writes for input level `k` (pixels have `c` samples). */
  function DecodeSample(conv: Conversion, t: ValidTables, input: seq<int>, k: int, c: int): (b: int)
    requires 0 <= k < |input| && c >= 1
    ensures IsByte(b)
  {
    if !NeedsAlphaLayout(conv) then DecodeValue(conv, t, input[k], 0)
    else if k % c == 0 then DecodeAlpha(input[k])
    else DecodeValue(conv, t, input[k], input[k - k % c])
  }

  /** A whole buffer pre-converted. */
  function EncodeAll(conv: Conversion, t: ValidTables, input: seq<int>, c: int): (out: seq<int>)
    requires c >= 1
    ensures |out| == |input|
  {
    seq(|input|, k requires 0 <= k < |input| => EncodeSample(conv, t, input, k, c))
  }

  /** Without sRGB and premultiplication every byte survives the round trip. */
  lemma PlainRoundTrip(t: ValidTables, input: seq<int>, c: int, k: int)
    requires c >= 1 && 0 <= k < |input| && IsByte(input[k])
    ensures DecodeSample(Plain, t, EncodeAll(Plain, t, input, c), k, c) == input[k]
  {
    LinearRoundTrip(input[k]);
  }

  /** Every variant carries the alpha byte through unchanged. */
  lemma {:induction false} AlphaRoundTrip(conv: Conversion, t: ValidTables, input: seq<int>, c: int, k: int)
    requires NeedsAlphaLayout(conv) && c >= 1 && 0 <= k < |input| && k % c == 0 && IsByte(input[k])
    ensures DecodeSample(conv, t, EncodeAll(conv, t, input, c), k, c) == input[k]
  {
    var s := EncodeAll(conv, t, input, c)[k];
    assert s == EncodeLinear(input[k]);
    LinearRoundTrip(input[k]);
    DecodeAlphaIsLinear(s);
  }

  /** An opaque pixel's colour survives premultiplication and un-premultiplication. */
  lemma {:induction false} OpaquePixelRoundTrip(t: ValidTables, input: seq<int>, c: int, k: int)
    requires c >= 1 && 0 <= k < |input| && k % c != 0 && IsByte(input[k])
    requires input[k - k % c] == 255
    ensures DecodeSample(AlphaPremultiplied, t, EncodeAll(AlphaPremultiplied, t, input, c), k, c) == input[k]
  {
    var out := EncodeAll(AlphaPremultiplied, t, input, c);
    var p := k - k % c;
    PixelStartIsAligned(k, c);
    assert out[p] == EncodeSample(AlphaPremultiplied, t, input, p, c);
    assert out[p] == EncodeLinear(255);
    assert out[k] == Premultiply(input[k], 255);
    OpaqueRoundTrip(input[k]);
  }

  /** The start of a stripe of rows, as a sample offset: always the first sample of a pixel. */
  lemma {:induction false} StripeOffsetIsPixelAligned(row: int, width: int, c: int)
    requires c >= 1
    ensures (row * width * c) % c == 0 && (row * width * c) - (row * width * c) % c == row * width * c
  {
    DivModOfMultiple(row * width, 0, c);
  }

  /** The first sample of the pixel holding sample `k` is the first sample of a pixel. */
  lemma {:induction false} PixelStartIsAligned(k: int, c: int)
    requires c >= 1
    ensures (k - k % c) % c == 0 && (k - k % c) - (k - k % c) % c == k - k % c
  {
    DivModOfMultiple(k / c, 0, c);
  }

  /**
   * The sample loop of the variants without a separate alpha channel: applies
   * `f` to every sample in `[begin, end)`.
   */
  method ConvertSamples(inPixels: array<int>, outPixels: array<int>, begin: int, end: int, f: int -> int)
    requires 0 <= begin <= end <= inPixels.Length && end <= outPixels.Length && inPixels != outPixels
    modifies outPixels
    ensures forall k :: begin <= k < end ==> outPixels[k] == f(inPixels[k])
    ensures forall k :: 0 <= k < outPixels.Length && !(begin <= k < end) ==> outPixels[k] == old(outPixels[k])
  {
    var p := begin;
    while p < end
      invariant begin <= p <= end
      invariant forall k :: begin <= k < p ==> outPixels[k] == f(inPixels[k])
      invariant forall k :: 0 <= k < outPixels.Length && !(begin <= k < p) ==> outPixels[k] == old(outPixels[k])
    {
      outPixels[p] := f(inPixels[p]);
      p := p + 1;
    }
  }

  /**
   * The pixel loop of the two-channel variants: each pixel is an alpha sample,
   * converted with `alpha`, and a gray sample, converted with `color` given the
   * pixel's alpha byte.
   */
  method ConvertPixels2(inPixels: array<int>, outPixels: array<int>, begin: int, end: int,
                        alpha: int -> int, color: (int, int) -> int)
    requires 0 <= begin <= end <= inPixels.Length && end <= outPixels.Length && inPixels != outPixels
    requires begin % 2 == 0 && end % 2 == 0
    modifies outPixels
    ensures forall k :: begin <= k < end ==>
      outPixels[k] == if k % 2 == 0 then alpha(inPixels[k]) else color(inPixels[k], inPixels[k - k % 2])
    ensures forall k :: 0 <= k < outPixels.Length && !(begin <= k < end) ==> outPixels[k] == old(outPixels[k])
  {
    var p := begin;
    while p < end
      invariant begin <= p <= end && p % 2 == 0
      invariant forall k :: begin <= k < p ==>
        outPixels[k] == if k % 2 == 0 then alpha(inPixels[k]) else color(inPixels[k], inPixels[k - k % 2])
      invariant forall k :: 0 <= k < outPixels.Length && !(begin <= k < p) ==> outPixels[k] == old(outPixels[k])
    {
      var a := inPixels[p];
      outPixels[p] := alpha(a);
      outPixels[p + 1] := color(inPixels[p + 1], a);
      p := p + 2;
    }
  }

  /**
   * The pixel loop of the four-channel variants: each pixel is an alpha sample,
   * converted with `alpha`, and blue, green and red samples, converted with
   * `color` given the pixel's alpha byte.
   */
  method ConvertPixels4(inPixels: array<int>, outPixels: array<int>, begin: int, end: int,
                        alpha: int -> int, color: (int, int) -> int)
    requires 0 <= begin <= end <= inPixels.Length && end <= outPixels.Length && inPixels != outPixels
    requires begin % 4 == 0 && end % 4 == 0
    modifies outPixels
    ensures forall k :: begin <= k < end ==>
      outPixels[k] == if k % 4 == 0 then alpha(inPixels[k]) else color(inPixels[k], inPixels[k - k % 4])
    ensures forall k :: 0 <= k < outPixels.Length && !(begin <= k < end) ==> outPixels[k] == old(outPixels[k])
  {
    var p := begin;
    while p < end
      invariant begin <= p <= end && p % 4 == 0
      invariant forall k :: begin <= k < p ==>
        outPixels[k] == if k % 4 == 0 then alpha(inPixels[k]) else color(inPixels[k], inPixels[k - k % 4])
      invariant forall k :: 0 <= k < outPixels.Length && !(begin <= k < p) ==> outPixels[k] == old(outPixels[k])
    {
      ConvertPixel4(inPixels, outPixels, p, alpha, color);
      p := p + 4;
    }
  }

  /** One pixel of `ConvertPixels4`: the four samples at `p`. */
  method ConvertPixel4(inPixels: array<int>, outPixels: array<int>, p: int, alpha: int -> int, color: (int, int) -> int)
    requires 0 <= p && p + 4 <= inPixels.Length && p + 4 <= outPixels.Length && inPixels != outPixels && p % 4 == 0
    modifies outPixels
    ensures forall k :: p <= k < p + 4 ==>
      outPixels[k] == if k % 4 == 0 then alpha(inPixels[k]) else color(inPixels[k], inPixels[k - k % 4])
    ensures forall k :: 0 <= k < outPixels.Length && !(p <= k < p + 4) ==> outPixels[k] == old(outPixels[k])
  {
    var a := inPixels[p];
    outPixels[p] := alpha(a);
    outPixels[p + 1] := color(inPixels[p + 1], a);
    outPixels[p + 2] := color(inPixels[p + 2], a);
    outPixels[p + 3] := color(inPixels[p + 3], a);
    forall k | p <= k < p + 4
      ensures outPixels[k] == if k % 4 == 0 then alpha(inPixels[k]) else color(inPixels[k], inPixels[k - k % 4])
    {
      SampleOfPixel(p, k, 4);
    }
  }

  /** The samples of the pixel that starts at `p`: sample `k` is channel `k - p`, and its pixel starts at `p`. */
  lemma SampleOfPixel(p: int, k: int, c: int)
    requires c >= 1 && p % c == 0 && p <= k < p + c
    ensures k % c == k - p && k - k % c == p
  {
    DivModOfMultiple(p / c, k - p, c);
  }

  /** `ConvertPixels2` or `ConvertPixels4`, by the number of channels. */
  method ConvertPixels(inPixels: array<int>, outPixels: array<int>, begin: int, end: int, c: int,
                       alpha: int -> int, color: (int, int) -> int)
    requires 0 <= begin <= end <= inPixels.Length && end <= outPixels.Length && inPixels != outPixels
    requires (c == 2 || c == 4) && begin % c == 0 && end % c == 0
    modifies outPixels
    ensures forall k :: begin <= k < end ==>
      outPixels[k] == if k % c == 0 then alpha(inPixels[k]) else color(inPixels[k], inPixels[k - k % c])
    ensures forall k :: 0 <= k < outPixels.Length && !(begin <= k < end) ==> outPixels[k] == old(outPixels[k])
  {
    if c == 2 {
      ConvertPixels2(inPixels, outPixels, begin, end, alpha, color);
    } else {
      ConvertPixels4(inPixels, outPixels, begin, end, alpha, color);
    }
  }

  /** The sample range `[row * width * c, ...)` of a stripe of rows. */
  function SampleOffset(row: int, width: int, c: int): int
  {
    row * width * c
  }

  /**
   * `PreConvertWorker.call` for rows `[rowBegin, rowEnd)` of a `width`-pixel
   * wide image with `c` channels.
   */
  method PreConvertWorker(flags: ColorFlags, c: int, width: int, t: ValidTables,
                          inPixels: array<int>, outPixels: array<int>, rowBegin: int, rowEnd: int)
    returns (r: Outcome)
    requires c >= 1 && width >= 0 && 0 <= rowBegin <= rowEnd && inPixels != outPixels
    requires SampleOffset(rowEnd, width, c) <= inPixels.Length && SampleOffset(rowEnd, width, c) <= outPixels.Length
    modifies outPixels
    ensures r.Pass? <==> !NeedsAlphaLayout(SelectPreConversion(flags)) || c == 2 || c == 4
    ensures r.Pass? ==> forall k :: SampleOffset(rowBegin, width, c) <= k < SampleOffset(rowEnd, width, c) ==>
      outPixels[k] == EncodeSample(SelectPreConversion(flags), t, old(inPixels[..]), k, c)
    ensures forall k :: (0 <= k < outPixels.Length &&
      !(r.Pass? && SampleOffset(rowBegin, width, c) <= k < SampleOffset(rowEnd, width, c))) ==>
      outPixels[k] == old(outPixels[k])
  {
    var begin, end := SampleOffset(rowBegin, width, c), SampleOffset(rowEnd, width, c);
    StripeOffsetIsPixelAligned(rowBegin, width, c);
    StripeOffsetIsPixelAligned(rowEnd, width, c);
    assert begin <= end by {
      MulIsMonotone(rowBegin, rowEnd, width);
      MulIsMonotone(rowBegin * width, rowEnd * width, c);
    }
    var conv := SelectPreConversion(flags);
    if NeedsAlphaLayout(conv) && c != 2 && c != 4 {
      return Fail("AssertionError");
    }
    PreConvertRange(conv, c, t, inPixels, outPixels, begin, end);
    r := Pass;
  }

  /** The samples `[begin, end)` converted by variant `conv`: the loop each worker runs. */
  method PreConvertRange(conv: Conversion, c: int, t: ValidTables,
                         inPixels: array<int>, outPixels: array<int>, begin: int, end: int)
    requires c >= 1 && 0 <= begin <= end <= inPixels.Length && end <= outPixels.Length && inPixels != outPixels
    requires NeedsAlphaLayout(conv) ==> (c == 2 || c == 4) && begin % c == 0 && end % c == 0
    modifies outPixels
    ensures forall k :: begin <= k < end ==> outPixels[k] == EncodeSample(conv, t, inPixels[..], k, c)
    ensures forall k :: 0 <= k < outPixels.Length && !(begin <= k < end) ==> outPixels[k] == old(outPixels[k])
  {
    ghost var input := inPixels[..];
    if NeedsAlphaLayout(conv) {
      ConvertPixels(inPixels, outPixels, begin, end, c, EncodeLinear, (b, a) => EncodeValue(conv, t, b, a));
    } else {
      ConvertSamples(inPixels, outPixels, begin, end, b => EncodeValue(conv, t, b, 0));
    }
    forall k | begin <= k < end
      ensures outPixels[k] == EncodeSample(conv, t, input, k, c)
    {
      assert input[k] == inPixels[k];
    }
  }

  /**
   * `PostConvertWorker.call` for rows `[rowBegin, rowEnd)` of a `width`-pixel
   * wide image with `c` channels.
   */
  method PostConvertWorker(flags: ColorFlags, c: int, width: int, t: ValidTables,
                           inPixels: array<int>, outPixels: array<int>, rowBegin: int, rowEnd: int)
    returns (r: Outcome)
    requires c >= 1 && width >= 0 && 0 <= rowBegin <= rowEnd && inPixels != outPixels
    requires SampleOffset(rowEnd, width, c) <= inPixels.Length && SampleOffset(rowEnd, width, c) <= outPixels.Length
    modifies outPixels
    ensures r.Pass? <==> !NeedsAlphaLayout(SelectPostConversion(flags)) || c == 2 || c == 4
    ensures r.Pass? ==> forall k :: SampleOffset(rowBegin, width, c) <= k < SampleOffset(rowEnd, width, c) ==>
      outPixels[k] == DecodeSample(SelectPostConversion(flags), t, old(inPixels[..]), k, c)
    ensures forall k :: (0 <= k < outPixels.Length &&
      !(r.Pass? && SampleOffset(rowBegin, width, c) <= k < SampleOffset(rowEnd, width, c))) ==>
      outPixels[k] == old(outPixels[k])
  {
    var begin, end := SampleOffset(rowBegin, width, c), SampleOffset(rowEnd, width, c);
    StripeOffsetIsPixelAligned(rowBegin, width, c);
    StripeOffsetIsPixelAligned(rowEnd, width, c);
    assert begin <= end by {
      MulIsMonotone(rowBegin, rowEnd, width);
      MulIsMonotone(rowBegin * width, rowEnd * width, c);
    }
    var conv := SelectPostConversion(flags);
    if NeedsAlphaLayout(conv) && c != 2 && c != 4 {
      return Fail("AssertionError");
    }
    PostConvertRange(conv, c, t, inPixels, outPixels, begin, end);
    r := Pass;
  }

  /** The samples `[begin, end)` converted by variant `conv`: the loop each worker runs. */
  method PostConvertRange(conv: Conversion, c: int, t: ValidTables,
                         inPixels: array<int>, outPixels: array<int>, begin: int, end: int)
    requires c >= 1 && 0 <= begin <= end <= inPixels.Length && end <= outPixels.Length && inPixels != outPixels
    requires NeedsAlphaLayout(conv) ==> (c == 2 || c == 4) && begin % c == 0 && end % c == 0
    modifies outPixels
    ensures forall k :: begin <= k < end ==> outPixels[k] == DecodeSample(conv, t, inPixels[..], k, c)
    ensures forall k :: 0 <= k < outPixels.Length && !(begin <= k < end) ==> outPixels[k] == old(outPixels[k])
  {
    if NeedsAlphaLayout(conv) {
      ConvertPixels(inPixels, outPixels, begin, end, c, DecodeAlpha, (s, a) => DecodeValue(conv, t, s, a));
    } else {
      ConvertSamples(inPixels, outPixels, begin, end, s => DecodeValue(conv, t, s, 0));
    }
  }
}
