/**
 * The earlier revision of the resampler, `ImageResamplerShort2`: the same
 * fixed-point format, but conversion stripes cut on samples rather than rows,
 * float arithmetic for most of the premultiplication, alpha-aware decoders
 * without clamping, and a resize that runs the passes one after another.
 *
 * Two places where this revision departs from what it evidently means are
 * modelled twice: as written (`PostSelectionAsWritten`, `DecodeAlphaAsWritten`,
 * `DecodeColorAsWritten`) with the inputs that show the departure, and
 * corrected (`SelectPostConversion`, `DecodeAlpha`, `DecodeColor`), which the
 * rest of the module uses.
 */
module ResamplerShort2 {
  import opened Java
  import opened Wrappers
  import opened PixelCodec
  import opened SrgbTables
  import opened ConvertWorkers
  import opened ResamplePipeline

  // ----- per-sample conversions -----

  /** `postConvert`: a level back to a byte, with its zero threshold at -16257. */
  function DecodeLinear2(s: int): (b: int)
    ensures IsByte(b)
  {
    if s <= -16257 then 0 else if s >= 16256 then 255 else ToByte(Shr(s + 16384, 7))
  }

  /** The threshold makes no difference: both revisions decode every level alike. */
  lemma {:induction false} LinearDecodersAgree(s: int)
    ensures DecodeLinear2(s) == DecodeLinear(s)
  {
    if -16384 < s <= -16257 {
      assert 0 < s + 16384 <= 127;
      assert Pow2(7) == 128;
      assert Shr(s + 16384, 7) == 0;
    }
  }

  /**
   * `(c & 0xFF) * ((a & 0xFF) * 128 / 255f)`: a colour byte weighed by its alpha
   * byte, on the scale of levels; it lies between 0 and the alpha's level
   * above black, and is exact for an opaque pixel.
   */
  function ScaledSample(c: int, alpha: int): (x: real)
    requires IsByte(c) && IsByte(alpha)
    ensures 0.0 <= x <= (alpha * 128) as real
    ensures alpha == 255 ==> x == (c * 128) as real
  {
    Weigh(c as real, (alpha * 128) as real)
  }

  /** `c * (top / 255)` for `c` in `0..255`: a fraction `c / 255` of `top`. */
  function Weigh(c: real, top: real): (x: real)
    requires 0.0 <= c <= 255.0 && top >= 0.0
    ensures 0.0 <= x <= top
    ensures top == 32640.0 ==> x == c * 128.0
  {
    var scale := top / 255.0;
    assert 255.0 * scale == top;
    MulRealMonotone(c, 255.0, scale);
    MulRealMonotone(0.0, c, scale);
    assert 0.0 <= c * scale <= top;
    c * scale
  }

  /** `(short)((c & 0xFF) * ((a & 0xFF) * 128 / 255f) - 16384)`: premultiplication in float. */
  function PremultiplyFloat(c: int, alpha: int): (s: int)
    ensures MIN_LEVEL <= s <= EncodeLinear(alpha)
  {
    var x := ScaledSample(ToByte(c), ToByte(alpha)) - 16384.0;
    RoundStaysBetween(TowardZero, x, MIN_LEVEL, ToByte(alpha) * 128 - 16384);
    ToShort(Trunc(x))
  }

  /**
   * A colour premultiplied in float lies between black and the alpha level;
   * opaque leaves it as is and transparent makes it black.
   */
  lemma {:induction false} PremultiplyFloatBounds(c: int, alpha: int)
    requires IsByte(c) && IsByte(alpha)
    ensures MIN_LEVEL <= PremultiplyFloat(c, alpha) <= EncodeLinear(alpha)
    ensures alpha == 255 ==> PremultiplyFloat(c, alpha) == EncodeLinear(c)
    ensures alpha == 0 ==> PremultiplyFloat(c, alpha) == MIN_LEVEL
  {
    assert ToByte(c) == c && ToByte(alpha) == alpha;
    var x := ScaledSample(c, alpha);
    RoundStaysBetween(TowardZero, x - 16384.0, MIN_LEVEL, alpha * 128 - 16384);
    if alpha == 255 {
      assert x - 16384.0 == (c * 128 - 16384) as real;
    }
  }

  /** `(short)(T2[c] * ((a & 0xFF) / 255f) - 16384)`: the two-channel sRGB premultiplication, in float. */
  function PremultiplyLevelFloat(level: int, alpha: int): (s: int)
    ensures 0 <= level <= FULL_SCALE ==> MIN_LEVEL <= s <= EncodeLinear(alpha)
  {
    var f := ToByte(alpha) as real / 255.0;
    var x := level as real * f - 16384.0;
    if 0 <= level <= FULL_SCALE then
      MulRealMonotone(0.0, level as real, f);
      MulRealMonotone(level as real, 32640.0, f);
      RoundStaysBetween(TowardZero, x, MIN_LEVEL, ToByte(alpha) * 128 - 16384);
      ToShort(Trunc(x))
    else ToShort(Trunc(x))
  }

  /**
   * The two-channel and four-channel sRGB premultiplications disagree: the
   * float one truncates toward zero after subtracting 16384, the integer one
   * divides first.
   */
  lemma ChannelCountsPremultiplyDifferently()
    ensures PremultiplyLevelFloat(1, 128) == -16383 && PremultiplyLevel(1, 128) == -16384
  {
    assert Trunc(128.0 / 255.0 - 16384.0) == -16383;
  }

  /** `a <= -16384 || a >= 16256 ? 1 : 32640f / (a + 16384)` */
  function AlphaInverse(a: int): (f: real)
    ensures f >= 1.0
  {
    if a <= -16384 || a >= 16256 then 1.0 else 32640.0 / (a + 16384) as real
  }

  /** `(int)((s + 16384) * alphaInv)`: a colour level divided by its alpha. */
  function UnPremultiplyFloat(s: int, a: int): (g: int)
    ensures s + 16384 >= 0 ==> g >= s + 16384
    ensures a <= -16384 || a >= 16256 ==> g == s + 16384
  {
    var v := (s + 16384) as real;
    if v >= 0.0 then
      MulRealMonotone(1.0, AlphaInverse(a), v);
      Trunc(v * AlphaInverse(a))
    else
    Trunc((s + 16384) as real * AlphaInverse(a))
  }

  /** `(byte)((a + 16384) >> 7)`: the alpha decoder as written, without clamping. */
  function DecodeAlphaAsWritten(a: int): (b: int)
    ensures IsByte(b)
  {
    ToByte(Shr(a + 16384, 7))
  }

  /** `(byte)(g >> 7)` of the un-premultiplied colour: the colour decoder as written, without clamping. */
  function DecodeColorAsWritten(s: int, a: int): (b: int)
    ensures IsByte(b)
  {
    ToByte(Shr(UnPremultiplyFloat(s, a), 7))
  }

  /**
   * Without clamping, a level just past either end wraps round: an alpha that
   * overshoots white decodes as fully transparent and one that undershoots as
   * opaque; likewise an opaque colour just past white decodes as black.
   */
  lemma UnclampedDecodersWrap()
    ensures DecodeAlphaAsWritten(16384) == 0 && DecodeAlpha(16384) == 255
    ensures DecodeAlphaAsWritten(-16385) == 255 && DecodeAlpha(-16385) == 0
    ensures DecodeColorAsWritten(16400, 16256) == 0 && DecodeColor(16400, 16256) == 255
  {
    assert Pow2(7) == 128;
    assert Shr(32768, 7) == 256;
    assert Shr(-1, 7) == -1;
    assert UnPremultiplyFloat(16400, 16256) == 32784;
    assert Shr(32784, 7) == 256;
  }

  /** The colour decoder, corrected: un-premultiplied levels clamp to black and white like `postConvert`. */
  function DecodeColor(s: int, a: int): (b: int)
    ensures IsByte(b)
  {
    DecodeUnPremultiplied(UnPremultiplyFloat(s, a))
  }

  /**
   * The corrected decoders never wrap: they keep the order of levels, clamp
   * beyond the ends, and agree with the decoders as written wherever those
   * do not overflow a byte.
   */
  lemma {:induction false} CorrectedDecodersClamp(a1: int, a2: int, s: int)
    requires a1 <= a2
    ensures DecodeAlpha(a1) <= DecodeAlpha(a2)
    ensures -16384 <= a1 <= 16383 ==> DecodeAlpha(a1) == DecodeAlphaAsWritten(a1)
    ensures 0 <= UnPremultiplyFloat(s, a1) < 32768 ==> DecodeColor(s, a1) == DecodeColorAsWritten(s, a1)
  {
    DecodeAlphaIsLinear(a1);
    DecodeAlphaIsLinear(a2);
    DecodeLinearIsMonotone(a1, a2);
    assert Pow2(7) == 128;
    if 16256 <= a1 <= 16383 {
      assert Shr(a1 + 16384, 7) == 255;
    }
    var g := UnPremultiplyFloat(s, a1);
    if 32640 <= g < 32768 {
      assert Shr(g, 7) == 255;
    }
  }

  /** An opaque colour survives the float premultiplication and its inverse. */
  lemma {:induction false} OpaqueFloatRoundTrip(c: int)
    requires IsByte(c)
    ensures DecodeColor(PremultiplyFloat(c, 255), EncodeLinear(255)) == c
  {
    PremultiplyFloatBounds(c, 255);
    assert EncodeLinear(255) == 16256;
    assert UnPremultiplyFloat(EncodeLinear(c), 16256) == c * 128;
    assert Pow2(7) == 128;
    if 0 < c < 255 {
      assert Shr(c * 128, 7) == c;
    }
  }

  /** `a <= -16384 || a >= 16256 ? 65536L : 65536L * 32640 / (a + 16384)`: alpha's inverse in 16.16 fixed point. */
  function AlphaInverseFixed(a: int): (f: int)
    ensures f >= 65536
  {
    if a <= -16384 || a >= 16256 then 65536 else Quot(65536 * 32640, a + 16384)
  }

  /** `SHORT2_TO_BYTE_SRGB[(short)((s + 16384) * alphaInv >> 16) & 0xFFFF]` */
  function DecodeSRGBUnPremultiplied2(s: int, a: int, t: ValidTables): (b: int)
    ensures IsByte(b)
  {
    t.short2ToByte[LowShort(ToShort(Shr((s + 16384) * AlphaInverseFixed(a), 16)))]
  }

  /** For an opaque pixel the fixed-point un-premultiply is the identity, so the colour reads the plain table. */
  lemma {:induction false} OpaqueSRGBUnPremultiplyIsPlain(pow: (real, real) -> real, rounding: Rounding, s: int, a: int)
    requires IsShort(s) && a >= 16256
    ensures DecodeSRGBUnPremultiplied2(s, a, Expected(pow, rounding)) == Expected(pow, rounding).shortToByte[LowShort(s)]
  {
    Pow2Constants();
    assert Shr((s + 16384) * 65536, 16) == s + 16384;
    assert LowShort(ToShort(s + 16384)) == LowShort(s + 16384);
    OffsetTableAgrees(pow, rounding, s);
  }

  /** Truncated table entries are never above the rounded ones, and at most one below. */
  lemma {:induction false} TruncatedEntriesAreAtMostOneBelow(pow: (real, real) -> real, s: int)
    requires 0.0 <= ToSRGB(pow, LevelFraction(s)) <= 1.0
    ensures ShortToByteEntry(pow, Nearest, s) - 1 <= ShortToByteEntry(pow, TowardZero, s) <= ShortToByteEntry(pow, Nearest, s)
  {
    var x := ToSRGB(pow, LevelFraction(s)) * 255.0;
    assert 0.0 <= x <= 255.0;
    RoundStaysBetween(Nearest, x, 0, 255);
    RoundStaysBetween(TowardZero, x, 0, 255);
  }

  // ----- variant selection -----

  /** The decision tree of `processPostConvert` as written: its sRGB branch tests only `srcIsPreAlpha`. */
  function PostSelectionAsWritten(f: ColorFlags): (c: Conversion)
    ensures Linearizes(c) <==> f.srcIsSRGB && !f.ignoreSRGB
    ensures Premultiplies(c) <==> f.hasAlpha && !f.srcIsPreAlpha && (!f.dontPreAlpha || Linearizes(c))
  {
    if !f.srcIsSRGB || f.ignoreSRGB then
      if !f.hasAlpha || f.srcIsPreAlpha || f.dontPreAlpha then Plain else AlphaPremultiplied
    else if !f.hasAlpha then SRGB
    else if f.srcIsPreAlpha then SRGBAlpha
    else SRGBAlphaPremultiplied
  }

  /**
   * As written, the post-conversion undoes the pre-conversion except for an
   * sRGB image with straight alpha and `dontPreAlpha` set: colours that were
   * never premultiplied are un-premultiplied.
   */
  lemma PostSelectionMismatch(f: ColorFlags)
    ensures PostSelectionAsWritten(f) != SelectPreConversion(f) <==>
      f.srcIsSRGB && !f.ignoreSRGB && f.hasAlpha && !f.srcIsPreAlpha && f.dontPreAlpha
    ensures PostSelectionAsWritten(ColorFlags(true, false, true, false, true)) == SRGBAlphaPremultiplied
    ensures SelectPreConversion(ColorFlags(true, false, true, false, true)) == SRGBAlpha
  {
  }

  // ----- whole-buffer conversions -----

  /** Whether a variant runs at all: the alpha variants' `switch (numBands)` has only cases 2 and 4. */
  predicate Converts(conv: Conversion, c: int)
  {
    !NeedsAlphaLayout(conv) || c == 2 || c == 4
  }

  /** The level a variant makes of colour sample `b` of a pixel with `c` samples whose alpha byte is `a`. */
  function Encode2Value(conv: Conversion, t: ValidTables, c: int, b: int, a: int): (s: int)
    ensures IsShort(s)
  {
    match conv
    case Plain => EncodeLinear(b)
    case AlphaPremultiplied => PremultiplyFloat(b, a)
    case SRGB => t.byteToShort[ToByte(b)]
    case SRGBAlpha => t.byteToShort[ToByte(b)]
    case SRGBAlphaPremultiplied =>
      if c == 2 then PremultiplyLevelFloat(t.byteToShort2[ToByte(b)], a)
      else PremultiplyLevel(t.byteToShort2[ToByte(b)], a)
  }

  /** The level the pre-conversion writes for input sample `k`. */
  function Encode2Sample(conv: Conversion, t: ValidTables, input: seq<int>, k: int, c: int): (s: int)
    requires 0 <= k < |input| && c >= 1
    ensures IsShort(s)
  {
    if !NeedsAlphaLayout(conv) then Encode2Value(conv, t, c, input[k], 0)
    else if k % c == 0 then EncodeLinear(input[k])
    else Encode2Value(conv, t, c, input[k], input[k - k % c])
  }

  /** The byte a variant makes of colour level `s` of a pixel whose alpha level is `a` (corrected decoders). */
  function Decode2Value(conv: Conversion, t: ValidTables, s: int, a: int): (b: int)
    ensures IsByte(b)
  {
    match conv
    case Plain => DecodeLinear2(s)
    case AlphaPremultiplied => DecodeColor(s, a)
    case SRGB => t.shortToByte[LowShort(s)]
    case SRGBAlpha => t.shortToByte[LowShort(s)]
    case SRGBAlphaPremultiplied => DecodeSRGBUnPremultiplied2(s, a, t)
  }

  /** The byte the post-conversion writes for input level `k` (with the corrected alpha-aware decoders). */
  function Decode2Sample(conv: Conversion, t: ValidTables, input: seq<int>, k: int, c: int): (b: int)
    requires 0 <= k < |input| && c >= 1
    ensures IsByte(b)
  {
    if !NeedsAlphaLayout(conv) then Decode2Value(conv, t, input[k], 0)
    else if k % c == 0 then DecodeAlpha(input[k])
    else Decode2Value(conv, t, input[k], input[k - k % c])
  }

  function Encode2All(conv: Conversion, t: ValidTables, input: seq<int>, c: int): (out: seq<int>)
    requires c >= 1
    ensures |out| == |input|
  {
    seq(|input|, k requires 0 <= k < |input| => Encode2Sample(conv, t, input, k, c))
  }

  function Decode2All(conv: Conversion, t: ValidTables, input: seq<int>, c: int): (out: seq<int>)
    requires c >= 1
    ensures |out| == |input|
  {
    seq(|input|, k requires 0 <= k < |input| => Decode2Sample(conv, t, input, k, c))
  }

  /**
   * Without sRGB and premultiplication an image comes back byte for byte: so
   * when nothing needs resampling, pre- and post-converting the source in
   * place returns it unchanged.
   */
  lemma {:induction false} Plain2RoundTrip(t: ValidTables, input: seq<int>, c: int)
    requires c >= 1 && forall k :: 0 <= k < |input| ==> IsByte(input[k])
    ensures Decode2All(Plain, t, Encode2All(Plain, t, input, c), c) == input
  {
    var out := Decode2All(Plain, t, Encode2All(Plain, t, input, c), c);
    forall k | 0 <= k < |input|
      ensures out[k] == input[k]
    {
      LinearDecodersAgree(EncodeLinear(input[k]));
      LinearRoundTrip(input[k]);
    }
  }

  /** Every alpha variant carries the alpha byte through unchanged. */
  lemma {:induction false} Alpha2RoundTrip(conv: Conversion, t: ValidTables, input: seq<int>, c: int, k: int)
    requires NeedsAlphaLayout(conv) && c >= 1 && 0 <= k < |input| && k % c == 0 && IsByte(input[k])
    ensures Decode2Sample(conv, t, Encode2All(conv, t, input, c), k, c) == input[k]
  {
    var s := Encode2All(conv, t, input, c)[k];
    assert s == EncodeLinear(input[k]);
    LinearRoundTrip(input[k]);
    DecodeAlphaIsLinear(s);
  }

  /** An opaque pixel's colour survives the float premultiplication and un-premultiplication. */
  lemma {:induction false} OpaquePixel2RoundTrip(t: ValidTables, input: seq<int>, c: int, k: int)
    requires c >= 1 && 0 <= k < |input| && k % c != 0 && IsByte(input[k])
    requires input[k - k % c] == 255
    ensures Decode2Sample(AlphaPremultiplied, t, Encode2All(AlphaPremultiplied, t, input, c), k, c) == input[k]
  {
    var out := Encode2All(AlphaPremultiplied, t, input, c);
    var p := k - k % c;
    PixelStartIsAligned(k, c);
    assert out[p] == Encode2Sample(AlphaPremultiplied, t, input, p, c);
    assert out[p] == EncodeLinear(255);
    assert out[k] == PremultiplyFloat(input[k], 255);
    OpaqueFloatRoundTrip(input[k]);
  }

  /** One pre-conversion job: the samples `[begin, end)`, converted as the settings say. */
  method PreConvert2(conv: Conversion, c: int, t: ValidTables,
                     inPixels: array<int>, outPixels: array<int>, begin: int, end: int)
    requires c >= 1 && 0 <= begin <= end <= inPixels.Length && end <= outPixels.Length && inPixels != outPixels
    requires Converts(conv, c) && NeedsAlphaLayout(conv) ==> begin % c == 0 && end % c == 0
    modifies outPixels
    ensures forall k :: begin <= k < end ==>
      outPixels[k] == if Converts(conv, c) then Encode2Sample(conv, t, inPixels[..], k, c) else old(outPixels[k])
    ensures forall k :: 0 <= k < outPixels.Length && !(begin <= k < end) ==> outPixels[k] == old(outPixels[k])
  {
    if !Converts(conv, c) {
      return;
    }
    PreConvertRange2(conv, c, t, inPixels, outPixels, begin, end);
  }

  /** The samples `[begin, end)` converted by variant `conv`, which runs with `c` channels. */
  method PreConvertRange2(conv: Conversion, c: int, t: ValidTables,
                          inPixels: array<int>, outPixels: array<int>, begin: int, end: int)
    requires c >= 1 && 0 <= begin <= end <= inPixels.Length && end <= outPixels.Length && inPixels != outPixels
    requires NeedsAlphaLayout(conv) ==> (c == 2 || c == 4) && begin % c == 0 && end % c == 0
    modifies outPixels
    ensures forall k :: begin <= k < end ==> outPixels[k] == Encode2Sample(conv, t, inPixels[..], k, c)
    ensures forall k :: 0 <= k < outPixels.Length && !(begin <= k < end) ==> outPixels[k] == old(outPixels[k])
  {
    if NeedsAlphaLayout(conv) {
      ConvertPixels(inPixels, outPixels, begin, end, c, EncodeLinear, (b, a) => Encode2Value(conv, t, c, b, a));
    } else {
      ConvertSamples(inPixels, outPixels, begin, end, b => Encode2Value(conv, t, c, b, 0));
    }
  }

  /** One post-conversion job: the samples `[begin, end)`, converted back as the settings say. */
  method PostConvert2(conv: Conversion, c: int, t: ValidTables,
                      inPixels: array<int>, outPixels: array<int>, begin: int, end: int)
    requires c >= 1 && 0 <= begin <= end <= inPixels.Length && end <= outPixels.Length && inPixels != outPixels
    requires Converts(conv, c) && NeedsAlphaLayout(conv) ==> begin % c == 0 && end % c == 0
    modifies outPixels
    ensures forall k :: begin <= k < end ==>
      outPixels[k] == if Converts(conv, c) then Decode2Sample(conv, t, inPixels[..], k, c) else old(outPixels[k])
    ensures forall k :: 0 <= k < outPixels.Length && !(begin <= k < end) ==> outPixels[k] == old(outPixels[k])
  {
    if !Converts(conv, c) {
      return;
    }
    PostConvertRange2(conv, c, t, inPixels, outPixels, begin, end);
  }

  /** The samples `[begin, end)` converted by variant `conv`, which runs with `c` channels. */
  method PostConvertRange2(conv: Conversion, c: int, t: ValidTables,
                          inPixels: array<int>, outPixels: array<int>, begin: int, end: int)
    requires c >= 1 && 0 <= begin <= end <= inPixels.Length && end <= outPixels.Length && inPixels != outPixels
    requires NeedsAlphaLayout(conv) ==> (c == 2 || c == 4) && begin % c == 0 && end % c == 0
    modifies outPixels
    ensures forall k :: begin <= k < end ==> outPixels[k] == Decode2Sample(conv, t, inPixels[..], k, c)
    ensures forall k :: 0 <= k < outPixels.Length && !(begin <= k < end) ==> outPixels[k] == old(outPixels[k])
  {
    if NeedsAlphaLayout(conv) {
      ConvertPixels(inPixels, outPixels, begin, end, c, DecodeAlpha, (s, a) => Decode2Value(conv, t, s, a));
    } else {
      ConvertSamples(inPixels, outPixels, begin, end, s => Decode2Value(conv, t, s, 0));
    }
  }

  // ----- stripes -----

  /**
   * Where conversion job `i` of `n` starts, dividing pixels before
   * multiplying by channels, computed without wrap-around (as `long`
   * arithmetic would). The jobs of the model use this corrected boundary.
   */
  function ConvertBoundary(i: nat, height: nat, width: nat, n: nat, c: nat): nat
    requires n > 0
  {
    i * height * width / n * c
  }

  /** The boundary as the conversion loops compute it: each product and the truncating quotient in 32-bit `int`. */
  function ConvertBoundaryAsWritten(i: int, height: int, width: int, n: int, c: int): (b: int)
    requires n != 0
    ensures IsInt(b)
  {
    ToInt(Quot(ToInt(ToInt(i * height) * width), n) * c)
  }

  /**
   * While `n * height * width` and the buffer length `height * width * c`
   * fit in an `int`, the 32-bit boundary is the corrected one.
   */
  lemma {:induction false} AsWrittenBoundaryAgreesInRange(i: nat, height: nat, width: nat, n: nat, c: nat)
    requires 0 < n && i <= n && IsInt(n * height * width) && IsInt(height * width * c)
    ensures ConvertBoundaryAsWritten(i, height, width, n, c) == ConvertBoundary(i, height, width, n, c)
  {
    var area := height * width;
    MulIsMonotone(i, n, height);
    MulIsMonotone(i * height, n * height, width);
    assert n * height * width == n * area;
    if width == 0 {
      assert i * height * width == 0;
    } else {
      MulIsMonotone(1, width, i * height);
      assert IsInt(i * height);
    }
    assert ToInt(ToInt(i * height) * width) == i * height * width;
    var q := i * height * width / n;
    assert Quot(i * height * width, n) == q;
    assert i * height * width == i * area;
    DivIsMonotone(i * area, n * area, n);
    DivModOfMultiple(area, 0, n);
    assert n * area == area * n;
    MulIsMonotone(q, area, c);
  }

  /**
   * An 8000 x 6000 three-band image split over 64 jobs: in 32-bit `int`
   * job 44's range is empty and job 45 starts at a negative index, where
   * the corrected boundary lies inside the buffer.
   */
  lemma AsWrittenStripeBoundsWrap()
    ensures ConvertBoundaryAsWritten(44, 6000, 8000, 64, 3) == 99000000
    ensures ConvertBoundaryAsWritten(45, 6000, 8000, 64, 3) == -100076592
    ensures ConvertBoundary(45, 6000, 8000, 64, 3) == 101250000 < 6000 * 8000 * 3
  {
    assert ToInt(45 * 6000 * 8000) == -2134967296;
    assert Quot(-2134967296, 64) == -33358864;
  }

  /**
   * The conversion jobs start on whole pixels, start where the previous one
   * ends and cover the buffer: the first starts at 0, the last ends at
   * `height * width * c`, and the boundaries never decrease.
   */
  lemma {:induction false} ConvertStripesCover(i: nat, j: nat, height: nat, width: nat, n: nat, c: nat)
    requires n > 0 && i <= j
    ensures c == 0 || ConvertBoundary(i, height, width, n, c) % c == 0
    ensures ConvertBoundary(0, height, width, n, c) == 0
    ensures ConvertBoundary(n, height, width, n, c) == height * width * c
    ensures ConvertBoundary(i, height, width, n, c) <= ConvertBoundary(j, height, width, n, c)
  {
    var area := height * width;
    assert i * height * width == i * area && j * height * width == j * area && n * height * width == n * area;
    StripesCover(i, j, area, n);
    MulIsMonotone(i * area / n, j * area / n, c);
    if c > 0 {
      DivModOfMultiple(i * area / n, 0, c);
    }
  }

  /** The sample range of conversion job `i`: whole pixels, inside the buffer, after the previous job's. */
  lemma {:induction false} ConvertJobRange(i: nat, height: nat, width: nat, n: nat, c: nat)
    requires n > 0 && i < n
    ensures var begin, end := ConvertBoundary(i, height, width, n, c), ConvertBoundary(i + 1, height, width, n, c);
      0 <= begin <= end <= height * width * c && (c == 0 || (begin % c == 0 && end % c == 0))
  {
    ConvertStripesCover(i, i + 1, height, width, n, c);
    ConvertStripesCover(i + 1, n, height, width, n, c);
  }

  /** `processPreConvert`, its jobs run one after another: the whole source converted, stripe by stripe. */
  method ProcessPreConvert(flags: ColorFlags, c: nat, t: ValidTables, height: nat, width: nat, n: nat,
                           inPixels: array<int>, outPixels: array<int>)
    requires c >= 1 && n > 0 && inPixels != outPixels
    requires height * width * c <= inPixels.Length && height * width * c <= outPixels.Length
    modifies outPixels
    ensures forall k :: 0 <= k < height * width * c ==>
      outPixels[k] == if Converts(SelectPreConversion(flags), c)
                      then Encode2Sample(SelectPreConversion(flags), t, inPixels[..], k, c) else old(outPixels[k])
    ensures forall k :: height * width * c <= k < outPixels.Length ==> outPixels[k] == old(outPixels[k])
  {
    var conv := SelectPreConversion(flags);
    ghost var input := inPixels[..];
    ConvertStripesCover(0, n, height, width, n, c);
    var i := 0;
    while i < n
      invariant 0 <= i <= n && inPixels[..] == input
      invariant ConvertBoundary(i, height, width, n, c) <= height * width * c
      invariant forall k :: 0 <= k < ConvertBoundary(i, height, width, n, c) ==>
        outPixels[k] == if Converts(conv, c) then Encode2Sample(conv, t, input, k, c) else old(outPixels[k])
      invariant forall k :: ConvertBoundary(i, height, width, n, c) <= k < outPixels.Length ==>
        outPixels[k] == old(outPixels[k])
    {
      var begin := ConvertBoundary(i, height, width, n, c);
      var end := ConvertBoundary(i + 1, height, width, n, c);
      ConvertJobRange(i, height, width, n, c);
      PreConvert2(conv, c, t, inPixels, outPixels, begin, end);
      i := i + 1;
    }
  }

  /** `processPostConvert`, its jobs run one after another: the whole destination converted back, stripe by stripe. */
  method ProcessPostConvert(flags: ColorFlags, c: nat, t: ValidTables, height: nat, width: nat, n: nat,
                            inPixels: array<int>, outPixels: array<int>)
    requires c >= 1 && n > 0 && inPixels != outPixels
    requires height * width * c <= inPixels.Length && height * width * c <= outPixels.Length
    modifies outPixels
    ensures forall k :: 0 <= k < height * width * c ==>
      outPixels[k] == if Converts(SelectPostConversion(flags), c)
                      then Decode2Sample(SelectPostConversion(flags), t, inPixels[..], k, c) else old(outPixels[k])
    ensures forall k :: height * width * c <= k < outPixels.Length ==> outPixels[k] == old(outPixels[k])
  {
    var conv := SelectPostConversion(flags);
    ghost var input := inPixels[..];
    ConvertStripesCover(0, n, height, width, n, c);
    var i := 0;
    while i < n
      invariant 0 <= i <= n && inPixels[..] == input
      invariant ConvertBoundary(i, height, width, n, c) <= height * width * c
      invariant forall k :: 0 <= k < ConvertBoundary(i, height, width, n, c) ==>
        outPixels[k] == if Converts(conv, c) then Decode2Sample(conv, t, input, k, c) else old(outPixels[k])
      invariant forall k :: ConvertBoundary(i, height, width, n, c) <= k < outPixels.Length ==>
        outPixels[k] == old(outPixels[k])
    {
      var begin := ConvertBoundary(i, height, width, n, c);
      var end := ConvertBoundary(i + 1, height, width, n, c);
      ConvertJobRange(i, height, width, n, c);
      PostConvert2(conv, c, t, inPixels, outPixels, begin, end);
      i := i + 1;
    }
  }

  // ----- the order of the passes -----

  /** The order `resize` picks: like `determineResampleOrder`, but horizontal first only when strictly cheaper. */
  function ResampleOrder2(g: Geometry): (o: ResamplingOrder)
    ensures ResamplesX(o) <==> ChangesX(g)
    ensures ResamplesY(o) <==> ChangesY(g)
  {
    if !ChangesX(g) && !ChangesY(g) then NONE
    else if !ChangesY(g) then X_ONLY
    else if !ChangesX(g) then Y_ONLY
    else if EffortXFirst(g) < EffortYFirst(g) then X_FIRST
    else Y_FIRST
  }

  /** The two revisions choose alike except on a tie between the two two-pass orders, which this one gives to vertical-first. */
  lemma OrdersDifferOnlyOnTies(g: Geometry)
    ensures ResampleOrder2(g) != DetermineResampleOrder(g) <==>
      ChangesX(g) && ChangesY(g) && EffortXFirst(g) == EffortYFirst(g)
    ensures ChangesX(g) && ChangesY(g) && EffortXFirst(g) == EffortYFirst(g) ==> ResampleOrder2(g) == Y_FIRST
  {
  }

  /** A resampling pass of `resize`: its input and output buffer, and the rows or row width it is given. */
  datatype Pass = HorizontalPass(input: Buffer, output: Buffer, height: int)
                | VerticalPass(input: Buffer, output: Buffer, width: int)

  /** The passes `resize` runs, in order, between the pre- and the post-conversion. */
  function Passes(o: ResamplingOrder, g: Geometry): (ps: seq<Pass>)
    ensures |ps| == (if ResamplesX(o) then 1 else 0) + (if ResamplesY(o) then 1 else 0)
    ensures |ps| > 0 ==> ps[0].input == SrcBuffer && ps[|ps| - 1].output == DstBuffer
    ensures |ps| == 2 ==> ps[0].output == ps[1].input == WorkBuffer
    ensures |ps| == 2 ==> ps[0].HorizontalPass? != ps[1].HorizontalPass?
  {
    match o
    case NONE => []
    case X_ONLY => [HorizontalPass(SrcBuffer, DstBuffer, g.srcHeight)]
    case Y_ONLY => [VerticalPass(SrcBuffer, DstBuffer, g.srcWidth)]
    case X_FIRST => [HorizontalPass(SrcBuffer, WorkBuffer, g.srcHeight), VerticalPass(WorkBuffer, DstBuffer, g.dstWidth)]
    case Y_FIRST => [VerticalPass(SrcBuffer, WorkBuffer, g.srcWidth), HorizontalPass(WorkBuffer, DstBuffer, g.dstHeight)]
  }

  /** The buffer the post-conversion reads: without passes `dstPixels` is `srcPixels` itself. */
  function PostConvertInput(o: ResamplingOrder): Buffer
  {
    if o.NONE? then SrcBuffer else DstBuffer
  }

  /**
   * The passes form a chain from the pre-converted source to the buffer the
   * post-conversion reads, one pass per axis that changes: each reads what the
   * one before wrote, the horizontal pass runs over the rows of its input and
   * the vertical one over rows as wide as its input's.
   */
  lemma {:induction false} PassesChain(g: Geometry)
    ensures var o := ResampleOrder2(g); var ps := Passes(o, g);
      |ps| == (if ChangesX(g) then 1 else 0) + (if ChangesY(g) then 1 else 0) &&
      (|ps| == 0 ==> PostConvertInput(o) == SrcBuffer) &&
      (|ps| > 0 ==> ps[0].input == SrcBuffer && ps[|ps| - 1].output == PostConvertInput(o)) &&
      (|ps| == 2 ==> ps[0].output == ps[1].input == WorkBuffer) &&
      (forall p :: p in ps && p.HorizontalPass? ==> p.height == (if p.input == SrcBuffer then g.srcHeight else g.dstHeight)) &&
      (forall p :: p in ps && p.VerticalPass? ==> p.width == (if p.input == SrcBuffer then g.srcWidth else g.dstWidth))
  {
    var o := ResampleOrder2(g);
    var ps := Passes(o, g);
    match o {
      case NONE =>
      case X_ONLY =>
      case Y_ONLY =>
      case X_FIRST =>
        assert ps == [HorizontalPass(SrcBuffer, WorkBuffer, g.srcHeight), VerticalPass(WorkBuffer, DstBuffer, g.dstWidth)];
      case Y_FIRST =>
        assert ps == [VerticalPass(SrcBuffer, WorkBuffer, g.srcWidth), HorizontalPass(WorkBuffer, DstBuffer, g.dstHeight)];
    }
  }
}
