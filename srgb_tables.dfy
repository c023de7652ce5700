/**
 * The sRGB transfer functions of IEC 61966-2-1 (clauses 5.2 and 5.3) and the
 * four lookup tables the resamplers build from them once, at class
 * initialisation (ImageResamplerShort rounds the entries to nearest,
 * ImageResamplerShort2 truncates them).  `Math.pow` is foreign and is taken as the parameter `pow`;
 * the decimal constants stand for the source's float literals, whose binary
 * rounding is not modelled.
 */
module SrgbTables {
  import opened Java
  import opened PixelCodec

  /** Linear light to the sRGB encoding. */
  function ToSRGB(pow: (real, real) -> real, f: real): (e: real)
    ensures 0.0 <= f < 0.0031308 ==> f <= e < 0.04045
  {
    if f < 0.0031308 then f * 12.92 else pow(f, 1.0 / 2.4) * 1.055 - 0.055
  }

  /** The sRGB encoding to linear light. */
  function FromSRGB(pow: (real, real) -> real, f: real): (l: real)
    ensures 0.0 <= f < 0.04045 ==> 0.0 <= l <= f
  {
    if f < 0.04045 then f / 12.92 else pow((f + 0.055) / 1.055, 2.4)
  }

  /** On the linear segments the two transfer functions undo each other. */
  lemma LinearSegmentsInvert(pow: (real, real) -> real, f: real)
    requires 0.0 <= f && f / 12.92 < 0.0031308
    ensures FromSRGB(pow, f) == f / 12.92
    ensures ToSRGB(pow, FromSRGB(pow, f)) == f
  {
  }

  /**
   * The two thresholds do not quite meet: just below the decoding knee the
   * linear segment already yields a value past the encoding knee.
   */
  lemma KneesDoNotMeet(pow: (real, real) -> real)
    ensures 0.04044999 < 0.04045 && FromSRGB(pow, 0.04044999) >= 0.0031308
  {
  }

  /** sRGB black and white are fixed points of both transfer functions, given `pow(1, y) == 1`. */
  lemma TransferFixesBlackAndWhite(pow: (real, real) -> real)
    requires pow(1.0, 2.4) == 1.0 && pow(1.0, 1.0 / 2.4) == 1.0
    ensures FromSRGB(pow, 0.0) == 0.0 && ToSRGB(pow, 0.0) == 0.0
    ensures FromSRGB(pow, 1.0) == 1.0 && ToSRGB(pow, 1.0) == 1.0
  {
    assert (1.0 + 0.055) / 1.055 == 1.0;
  }

  /** The four tables: sRGB byte to level, sRGB byte to level + 16384, and back from each. */
  datatype Tables = Tables(byteToShort: seq<int>, byteToShort2: seq<int>,
                           shortToByte: seq<int>, short2ToByte: seq<int>)
  {
    predicate Valid()
    {
      |byteToShort| == 256 && |byteToShort2| == 256 &&
      |shortToByte| == SHORT_RANGE && |short2ToByte| == SHORT_RANGE &&
      (forall b :: 0 <= b < 256 ==> IsShort(byteToShort[b]) && IsShort(byteToShort2[b])) &&
      (forall u :: 0 <= u < SHORT_RANGE ==> IsByte(shortToByte[u]) && IsByte(short2ToByte[u]))
    }
  }

  /** Tables of the right sizes holding shorts and bytes. */
  type ValidTables = t: Tables | t.Valid()
    witness Tables(seq(256, _ => 0), seq(256, _ => 0), seq(SHORT_RANGE, _ => 0), seq(SHORT_RANGE, _ => 0))

  /**
   * How the initialiser rounds an entry before the narrowing cast:
   * `Math.floor(x + 0.5)` (to nearest) in ImageResamplerShort, none at all
   * (the cast truncates toward zero) in ImageResamplerShort2.
   */
  datatype Rounding = Nearest | TowardZero

  function Round(rounding: Rounding, x: real): (r: int)
    ensures x - 1.0 < r as real < x + 1.0
  {
    match rounding
    case Nearest => Floor(x + 0.5)
    case TowardZero => Trunc(x)
  }

  /** Rounding keeps a value between two integers between them. */
  lemma RoundStaysBetween(rounding: Rounding, x: real, lo: int, hi: int)
    requires lo as real <= x <= hi as real
    ensures lo <= Round(rounding, x) <= hi
  {
  }

  /** `BYTE_SRGB_TO_SHORT[b]`: the linear level of an sRGB byte. */
  function ByteToShortEntry(pow: (real, real) -> real, rounding: Rounding, b: int): int
  {
    ToShort(Round(rounding, FromSRGB(pow, b as real / 255.0) * 32640.0 - 16384.0))
  }

  /** The fraction of full scale a level stands for, clamped to [0, 1]. */
  function LevelFraction(s: int): (f: real)
    ensures 0.0 <= f <= 1.0
  {
    if s < -16384 then 0.0 else if s >= 16256 then 1.0 else (s + 16384) as real / 32640.0
  }

  /** `SHORT_TO_BYTE_SRGB[s & 0xFFFF]`: the sRGB byte of a level. */
  function ShortToByteEntry(pow: (real, real) -> real, rounding: Rounding, s: int): int
  {
    ToByte(Round(rounding, ToSRGB(pow, LevelFraction(s)) * 255.0))
  }

  /** The tables as the static initialiser leaves them. */
  function Expected(pow: (real, real) -> real, rounding: Rounding): (t: Tables)
    ensures t.Valid()
  {
    Tables(seq(256, b => ByteToShortEntry(pow, rounding, b)),
           seq(256, b => ToShort(ByteToShortEntry(pow, rounding, b) + 16384)),
           seq(SHORT_RANGE, u => ShortToByteEntry(pow, rounding, ToShort(u))),
           seq(SHORT_RANGE, u => ShortToByteEntry(pow, rounding, OffsetSlotLevel(u))))
  }

  /** The level whose entry the offset table keeps in slot `u`: `(u - 16384)` as a short. */
  function OffsetSlotLevel(u: int): int
  {
    ToShort(u - 16384)
  }

  /** Slot `s & 0xFFFF` holds level `s` and slot `(s + 16384) & 0xFFFF` of the offset table does too, and no other slot. */
  lemma SlotOfLevel(s: int, u: int)
    requires IsShort(s) && 0 <= u < SHORT_RANGE
    ensures u == LowShort(s) <==> ToShort(u) == s
    ensures u == LowShort(s + 16384) <==> OffsetSlotLevel(u) == s
  {
    assert LowShort(s) == if s >= 0 then s else s + SHORT_RANGE;
    assert LowShort(s + 16384) == if s + 16384 >= 0 then s + 16384 else s + 16384 + SHORT_RANGE;
    assert ToShort(u) == if u < 0x8000 then u else u - SHORT_RANGE;
    assert OffsetSlotLevel(u) == if u < 0x8000 + 16384 then u - 16384 else u - 16384 - SHORT_RANGE;
  }

  /** The static initialiser of the four tables. */
  method InitTables(pow: (real, real) -> real, rounding: Rounding) returns (t: Tables)
    ensures t == Expected(pow, rounding)
  {
    var byteToShort, byteToShort2 := InitByteTables(pow, rounding);
    var shortToByte, short2ToByte := InitShortTables(pow, rounding);
    t := Tables(byteToShort, byteToShort2, shortToByte, short2ToByte);
  }

  /** The first loop of the initialiser: the two byte-indexed tables. */
  method InitByteTables(pow: (real, real) -> real, rounding: Rounding) returns (t1: seq<int>, t2: seq<int>)
    ensures t1 == Expected(pow, rounding).byteToShort && t2 == Expected(pow, rounding).byteToShort2
  {
    var byteToShort := new int[256];
    var byteToShort2 := new int[256];
    var b := 0;
    while b < 256
      invariant 0 <= b <= 256
      invariant forall i :: 0 <= i < b ==> byteToShort[i] == ByteToShortEntry(pow, rounding, i)
      invariant forall i :: 0 <= i < b ==> byteToShort2[i] == ToShort(ByteToShortEntry(pow, rounding, i) + 16384)
    {
      StoreByte(pow, rounding, byteToShort, byteToShort2, b);
      b := b + 1;
    }
    t1, t2 := byteToShort[..], byteToShort2[..];
  }

  /** One step of the first loop: both byte-indexed slots of byte `b`. */
  method StoreByte(pow: (real, real) -> real, rounding: Rounding, byteToShort: array<int>, byteToShort2: array<int>, b: int)
    requires byteToShort != byteToShort2 && 0 <= b < byteToShort.Length == byteToShort2.Length
    modifies byteToShort, byteToShort2
    ensures byteToShort[b] == ByteToShortEntry(pow, rounding, b)
    ensures byteToShort2[b] == ToShort(ByteToShortEntry(pow, rounding, b) + 16384)
    ensures forall i :: 0 <= i < byteToShort.Length && i != b ==>
      byteToShort[i] == old(byteToShort[i]) && byteToShort2[i] == old(byteToShort2[i])
  {
    var f := b as real / 255.0;
    byteToShort[b] := ToShort(Round(rounding, FromSRGB(pow, f) * 32640.0 - 16384.0));
    assert byteToShort[b] == ByteToShortEntry(pow, rounding, b);
    // with the offset already applied
    byteToShort2[b] := ToShort(byteToShort[b] + 16384);
  }

  /** Slots of the two level tables filled for every level below `s`. */
  predicate FilledBelow(pow: (real, real) -> real, rounding: Rounding, shortToByte: array<int>, short2ToByte: array<int>, s: int)
    requires shortToByte.Length == short2ToByte.Length == SHORT_RANGE
    reads shortToByte, short2ToByte
  {
    (forall u :: 0 <= u < SHORT_RANGE && ToShort(u) < s ==>
      shortToByte[u] == ShortToByteEntry(pow, rounding, ToShort(u))) &&
    (forall u :: 0 <= u < SHORT_RANGE && OffsetSlotLevel(u) < s ==>
      short2ToByte[u] == ShortToByteEntry(pow, rounding, OffsetSlotLevel(u)))
  }

  /** The second loop of the initialiser: the two level-indexed tables, filled for every short `s`. */
  method InitShortTables(pow: (real, real) -> real, rounding: Rounding) returns (t1: seq<int>, t2: seq<int>)
    ensures t1 == Expected(pow, rounding).shortToByte && t2 == Expected(pow, rounding).short2ToByte
  {
    var shortToByte := new int[SHORT_RANGE];
    var short2ToByte := new int[SHORT_RANGE];
    var s := -0x8000;
    while s < 0x8000
      invariant -0x8000 <= s <= 0x8000
      invariant FilledBelow(pow, rounding, shortToByte, short2ToByte, s)
    {
      StoreLevel(pow, rounding, shortToByte, short2ToByte, s);
      s := s + 1;
    }
    t1, t2 := shortToByte[..], short2ToByte[..];
    FilledTablesAreExpected(pow, rounding, shortToByte, short2ToByte);
  }

  /** One iteration of the second loop: the entries of level `s`. */
  method StoreLevel(pow: (real, real) -> real, rounding: Rounding, shortToByte: array<int>, short2ToByte: array<int>, s: int)
    requires shortToByte.Length == short2ToByte.Length == SHORT_RANGE && shortToByte != short2ToByte
    requires IsShort(s) && FilledBelow(pow, rounding, shortToByte, short2ToByte, s)
    modifies shortToByte, short2ToByte
    ensures FilledBelow(pow, rounding, shortToByte, short2ToByte, s + 1)
  {
    var f := if s < -16384 then 0.0 else if s >= 16256 then 1.0 else (s + 16384) as real / 32640.0;
    assert f == LevelFraction(s);
    var slot, slot2 := LowShort(s), LowShort(s + 16384);
    SlotOfLevel(s, slot);
    SlotOfLevel(s, slot2);
    shortToByte[slot] := ToByte(Round(rounding, ToSRGB(pow, f) * 255.0));
    // with the offset already applied
    short2ToByte[slot2] := shortToByte[slot];
    forall u | 0 <= u < SHORT_RANGE && ToShort(u) < s + 1
      ensures shortToByte[u] == ShortToByteEntry(pow, rounding, ToShort(u))
    {
      SlotOfLevel(s, u);
    }
    forall u | 0 <= u < SHORT_RANGE && OffsetSlotLevel(u) < s + 1
      ensures short2ToByte[u] == ShortToByteEntry(pow, rounding, OffsetSlotLevel(u))
    {
      SlotOfLevel(s, u);
    }
  }

  lemma FilledTablesAreExpected(pow: (real, real) -> real, rounding: Rounding, shortToByte: array<int>, short2ToByte: array<int>)
    requires shortToByte.Length == short2ToByte.Length == SHORT_RANGE
    requires FilledBelow(pow, rounding, shortToByte, short2ToByte, 0x8000)
    ensures shortToByte[..] == Expected(pow, rounding).shortToByte && short2ToByte[..] == Expected(pow, rounding).short2ToByte
  {
  }

  /** The entry of level `s` in the plain and in the offset level table. */
  lemma EntriesOfLevel(pow: (real, real) -> real, rounding: Rounding, s: int)
    requires IsShort(s)
    ensures Expected(pow, rounding).shortToByte[LowShort(s)] == ShortToByteEntry(pow, rounding, s)
    ensures Expected(pow, rounding).short2ToByte[LowShort(s + 16384)] == ShortToByteEntry(pow, rounding, s)
  {
    SlotOfLevel(s, LowShort(s));
    SlotOfLevel(s, LowShort(s + 16384));
  }

  /** The offset table is the plain table shifted by 16384 levels. */
  lemma OffsetTableAgrees(pow: (real, real) -> real, rounding: Rounding, s: int)
    requires IsShort(s)
    ensures Expected(pow, rounding).short2ToByte[LowShort(s + 16384)] == Expected(pow, rounding).shortToByte[LowShort(s)]
  {
    EntriesOfLevel(pow, rounding, s);
  }

  /** Levels below black all decode to black's byte, levels above white to white's. */
  lemma ShortToByteClamps(pow: (real, real) -> real, rounding: Rounding, s: int)
    requires IsShort(s)
    ensures s <= MIN_LEVEL ==> Expected(pow, rounding).shortToByte[LowShort(s)] == Expected(pow, rounding).shortToByte[LowShort(MIN_LEVEL)]
    ensures s >= MAX_LEVEL ==> Expected(pow, rounding).shortToByte[LowShort(s)] == Expected(pow, rounding).shortToByte[LowShort(MAX_LEVEL)]
  {
    if s <= MIN_LEVEL {
      EntriesOfLevel(pow, rounding, s);
      EntriesOfLevel(pow, rounding, MIN_LEVEL);
      assert LevelFraction(s) == LevelFraction(MIN_LEVEL);
    } else if s >= MAX_LEVEL {
      EntriesOfLevel(pow, rounding, s);
      EntriesOfLevel(pow, rounding, MAX_LEVEL);
      assert LevelFraction(s) == LevelFraction(MAX_LEVEL);
    }
  }

  /** When the transfer function maps into [0, 1], the offset table is the plain table plus 16384. */
  lemma {:induction false} OffsetLevelsAreShifted(pow: (real, real) -> real, rounding: Rounding, b: int)
    requires 0 <= b < 256 && 0.0 <= FromSRGB(pow, b as real / 255.0) <= 1.0
    ensures MIN_LEVEL <= Expected(pow, rounding).byteToShort[b] <= MAX_LEVEL
    ensures Expected(pow, rounding).byteToShort2[b] == Expected(pow, rounding).byteToShort[b] + 16384
  {
    var x := FromSRGB(pow, b as real / 255.0) * 32640.0;
    assert 0.0 <= x <= 32640.0;
    RoundStaysBetween(rounding, x - 16384.0, MIN_LEVEL, MAX_LEVEL);
  }

  /** sRGB black and white map to the extreme levels and back, given `pow(1, y) == 1`. */
  lemma {:induction false} TablesFixBlackAndWhite(pow: (real, real) -> real, rounding: Rounding)
    requires pow(1.0, 2.4) == 1.0 && pow(1.0, 1.0 / 2.4) == 1.0
    ensures Expected(pow, rounding).byteToShort[0] == MIN_LEVEL && Expected(pow, rounding).byteToShort[255] == MAX_LEVEL
    ensures Expected(pow, rounding).shortToByte[LowShort(MIN_LEVEL)] == 0
    ensures Expected(pow, rounding).shortToByte[LowShort(MAX_LEVEL)] == 255
  {
    TransferFixesBlackAndWhite(pow);
    EntriesOfLevel(pow, rounding, MIN_LEVEL);
    EntriesOfLevel(pow, rounding, MAX_LEVEL);
    assert LevelFraction(MIN_LEVEL) == 0.0 && LevelFraction(MAX_LEVEL) == 1.0;
    assert Round(rounding, 255.0) == 255 && Round(rounding, 0.0) == 0;
    assert Round(rounding, -16384.0) == -16384 && Round(rounding, 16256.0) == 16256;
  }
}
