/**
 * The 15-bit fixed-point pixel format of the resampler and the per-sample
 * conversions between it and 8-bit samples.
 *
 * A byte `b` becomes `b * 128 - 16384`, so bytes 0..255 span the levels
 * -16384..16256 (32640 = 255 * 128 apart) and leave headroom in a `short`
 * for the overshoot of sharpening curves.  Bytes are unsigned (see `Java`).
 */
module PixelCodec {
  import opened Java

  /** The level of byte 0. */
  const MIN_LEVEL: int := -16384
  /** The level of byte 255. */
  const MAX_LEVEL: int := 16256
  /** The distance between the two, `255 << 7`. */
  const FULL_SCALE: int := 32640

  /** `(short)(((b & 0xFF) << 7) - 16384)`: a linear byte as a level. */
  function EncodeLinear(b: int): (s: int)
    ensures MIN_LEVEL <= s <= MAX_LEVEL && (s - MIN_LEVEL) % 128 == 0
  {
    ToShort(ToByte(b) * 128 - 16384)
  }

  /** A level back to a linear byte: clamped at both ends, otherwise rounded down to a multiple of 128. */
  function DecodeLinear(s: int): (b: int)
    ensures IsByte(b)
  {
    if s <= -16384 then 0 else if s >= 16256 then 255 else ToByte(Shr(s + 16384, 7))
  }

  /** Every byte survives encoding and decoding. */
  lemma LinearRoundTrip(b: int)
    requires IsByte(b)
    ensures DecodeLinear(EncodeLinear(b)) == b
  {
    assert EncodeLinear(b) == b * 128 - 16384;
    if 0 < b < 255 {
      assert Shr(b * 128, 7) == b;
    }
  }

  /** Decoding rounds down: it picks the largest byte whose level does not exceed `s`. */
  lemma {:induction false} DecodeLinearRoundsDown(s: int)
    requires MIN_LEVEL <= s < MAX_LEVEL
    ensures EncodeLinear(DecodeLinear(s)) <= s < EncodeLinear(DecodeLinear(s)) + 128
  {
    var q := Shr(s + 16384, 7);
    assert 0 <= q < 255;
    assert DecodeLinear(s) == q;
    assert EncodeLinear(q) == q * 128 - 16384;
  }

  /** Decoding never reverses the order of two levels. */
  lemma {:induction false} DecodeLinearIsMonotone(s1: int, s2: int)
    requires s1 <= s2
    ensures DecodeLinear(s1) <= DecodeLinear(s2)
  {
    if -16384 < s1 && s2 < 16256 {
      ShrIsMonotone(s1 + 16384, s2 + 16384, 7);
    }
  }

  lemma ShrIsMonotone(x: int, y: int, k: nat)
    requires x <= y
    ensures Shr(x, k) <= Shr(y, k)
  {
    if Shr(x, k) > Shr(y, k) {
      MulIsMonotone(Shr(y, k) + 1, Shr(x, k), Pow2(k));
    }
  }

  /** `(short)(c * 128 * alpha / 255 - 16384)`: a linear colour byte premultiplied by its alpha byte. */
  function Premultiply(c: int, alpha: int): (s: int)
    ensures MIN_LEVEL <= s <= EncodeLinear(alpha)
  {
    ByteProductBounds(ToByte(c), ToByte(alpha));
    QuotAtMost(ToByte(c) * 128 * ToByte(alpha), 128 * ToByte(alpha));
    ToShort(Quot(ToByte(c) * 128 * ToByte(alpha), 255) - 16384)
  }

  /** A premultiplied colour lies between black and the alpha level; opaque leaves it as is, transparent makes it black. */
  lemma {:induction false} PremultiplyBounds(c: int, alpha: int)
    requires IsByte(c) && IsByte(alpha)
    ensures MIN_LEVEL <= Premultiply(c, alpha) <= EncodeLinear(alpha)
    ensures alpha == 255 ==> Premultiply(c, alpha) == EncodeLinear(c)
    ensures alpha == 0 ==> Premultiply(c, alpha) == MIN_LEVEL
  {
    ByteProductBounds(c, alpha);
    QuotAtMost(c * 128 * alpha, 128 * alpha);
    if alpha == 255 {
      assert c * 128 * alpha == (c * 128) * 255;
      QuotOfMultiple(c * 128);
    }
  }

  lemma ByteProductBounds(c: int, alpha: int)
    requires IsByte(c) && IsByte(alpha)
    ensures 0 <= c * 128 * alpha <= 255 * (128 * alpha)
  {
    MulIsMonotone(c, 255, 128 * alpha);
    assert c * 128 * alpha == c * (128 * alpha);
  }

  /** Truncating division by 255 of a value in `0..255 * m` lies in `0..m`. */
  lemma QuotAtMost(p: int, m: int)
    requires 0 <= p <= 255 * m
    ensures 0 <= Quot(p, 255) <= m
  {
    var q := Quot(p, 255);
    if q > m {
      MulIsMonotone(m + 1, q, 255);
    }
    if q < 0 {
      MulIsMonotone(q + 1, 0, 255);
    }
  }

  lemma QuotOfMultiple(k: int)
    requires k >= 0
    ensures Quot(k * 255, 255) == k
  {
    var q := Quot(k * 255, 255);
    if q < k {
      MulIsMonotone(q + 1, k, 255);
    }
    if q > k {
      MulIsMonotone(k + 1, q, 255);
    }
  }

  /** `(short)(T2 * alpha / 255 - 16384)`: a level from the offset table premultiplied by an alpha byte. */
  function PremultiplyLevel(level: int, alpha: int): (s: int)
    ensures 0 <= level <= FULL_SCALE ==> MIN_LEVEL <= s <= EncodeLinear(alpha)
  {
    if 0 <= level <= FULL_SCALE then
      MulIsMonotone(level, FULL_SCALE, ToByte(alpha));
      QuotAtMost(level * ToByte(alpha), 128 * ToByte(alpha));
      ToShort(Quot(level * ToByte(alpha), 255) - 16384)
    else ToShort(Quot(level * ToByte(alpha), 255) - 16384)
  }

  /** An alpha level clamped to 0..32640 (0 is transparent). */
  function AlphaLevel(a: int): (l: int)
    ensures 0 <= l <= FULL_SCALE
  {
    if a <= -16384 then 0 else if a >= 16256 then 32640 else a + 16384
  }

  /** `(byte)(a >> 7)` of the clamped alpha level. */
  function DecodeAlpha(a: int): (b: int)
    ensures IsByte(b)
  {
    ToByte(Shr(AlphaLevel(a), 7))
  }

  /** Decoding the alpha channel through its clamped level agrees with the plain linear decoding. */
  lemma DecodeAlphaIsLinear(a: int)
    ensures DecodeAlpha(a) == DecodeLinear(a)
  {
    if a >= 16256 {
      assert Shr(32640, 7) == 255;
    } else if a <= -16384 {
      assert Shr(0, 7) == 0;
    }
  }

  /**
   * `(int)((s + 16384) * (32640f / level))`: a premultiplied colour divided by
   * its alpha level, with the float semantics of a zero level (0/0 is NaN and
   * casts to 0, x/0 is infinite and casts to the extreme int).
   */
  function UnPremultiply(s: int, level: int): (g: int)
    requires level >= 0
    ensures level == FULL_SCALE ==> g == s + 16384
    ensures s + 16384 >= 0 ==> g >= 0
    ensures 0 < level <= FULL_SCALE && s + 16384 >= 0 ==> g >= s + 16384
  {
    var v := s + 16384;
    if level == 0 then (if v > 0 then 0x7FFF_FFFF else if v < 0 then -0x8000_0000 else 0)
    else
      var q := 32640.0 / level as real;
      if level <= FULL_SCALE && v >= 0 then
        assert q * level as real == 32640.0;
        assert q >= 1.0;
        MulRealMonotone(1.0, q, v as real);
        Trunc(v as real * q)
      else Trunc(v as real * q)
  }

  /** `g <= 0 ? 0 : g >= 32640 ? -1 : (byte)(g >> 7)` */
  function DecodeUnPremultiplied(g: int): (b: int)
    ensures IsByte(b)
    ensures g <= 0 ==> b == 0
    ensures g >= 32640 ==> b == 255
    ensures 0 < g < 32640 ==> b * 128 <= g < (b + 1) * 128
  {
    if g <= 0 then 0
    else if g >= 32640 then 255
    else
      Pow2Constants();
      ToByte(Shr(g, 7))
  }

  /** For an opaque pixel, un-premultiplying and decoding is plain linear decoding. */
  lemma {:induction false} OpaqueUnPremultiplyIsLinear(s: int, a: int)
    requires a >= 16256
    ensures DecodeUnPremultiplied(UnPremultiply(s, AlphaLevel(a))) == DecodeLinear(s)
  {
    assert 32640.0 / 32640.0 == 1.0;
    assert UnPremultiply(s, AlphaLevel(a)) == s + 16384;
  }

  /** A fully transparent pixel decodes to black when its colour level is at or below black, and to 255 otherwise. */
  lemma TransparentDecodesBlackUnlessLevelPositive(s: int, a: int)
    requires a <= -16384
    ensures s <= -16384 ==> DecodeUnPremultiplied(UnPremultiply(s, AlphaLevel(a))) == 0
    ensures s > -16384 ==> DecodeUnPremultiplied(UnPremultiply(s, AlphaLevel(a))) == 255
  {
  }

  /** An opaque colour byte survives premultiplication followed by un-premultiplication. */
  lemma OpaqueRoundTrip(c: int)
    requires IsByte(c)
    ensures DecodeUnPremultiplied(UnPremultiply(Premultiply(c, 255), AlphaLevel(EncodeLinear(255)))) == c
  {
    PremultiplyBounds(c, 255);
    OpaqueUnPremultiplyIsLinear(Premultiply(c, 255), EncodeLinear(255));
    LinearRoundTrip(c);
  }
}
