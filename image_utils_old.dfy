/**
 * `ImageUtilsOld`: packing pixels between `int` words and interleaved bytes.
 * `ints2bytes` spreads the low three (or four) bytes of each word over a
 * three- (or four-) byte slot in a caller's array, in a given channel order;
 * `bytes2int` gathers them back into a new word array.  A byte is held by its
 * unsigned value 0..255, so `(byte)v` is `ToByte(v)` and `b & 0xff` is `ToByte(b)`.
 */
module ImageUtilsOld {
  import opened Java
  import opened Wrappers

  lemma Pow2Eight()
    ensures Pow2(8) == 256
  {
    assert Pow2(4) == 16;
  }

  /** Byte 0 (lowest) to byte 3 of a word, as `ints2bytes` extracts them: `(byte)value`, then `value >>= 8`. */
  function Byte0(x: int): int { ToByte(x) }
  function Byte1(x: int): int { ToByte(Shr(x, 8)) }
  function Byte2(x: int): int { ToByte(Shr(Shr(x, 8), 8)) }
  function Byte3(x: int): int { ToByte(Shr(Shr(Shr(x, 8), 8), 8)) }

  const RANGE_24: int := 0x100_0000

  /** The three low bytes of a word put back together are the word's low 24 bits (`x & 0xFFFFFF`). */
  lemma LowBytesMakeLow24Bits(x: int)
    ensures Byte2(x) * 0x1_0000 + Byte1(x) * 0x100 + Byte0(x) == x % RANGE_24
  {
    Pow2Eight();
    var q1, q2, q3 := x / 256, x / 256 / 256, x / 256 / 256 / 256;
    var rest := Byte2(x) * 0x1_0000 + Byte1(x) * 0x100 + Byte0(x);
    assert x == q3 * RANGE_24 + rest;
    DivModOfMultiple(q3, rest, RANGE_24);
  }

  /** The four bytes of a Java int put back together, with the top byte wrapping into the sign, are the int. */
  lemma FourBytesMakeTheInt(x: int)
    requires IsInt(x)
    ensures ToInt(Byte3(x) * 0x100_0000 + Byte2(x) * 0x1_0000 + Byte1(x) * 0x100 + Byte0(x)) == x
  {
    Pow2Eight();
    var q4 := x / 256 / 256 / 256 / 256;
    var rest := Byte3(x) * 0x100_0000 + Byte2(x) * 0x1_0000 + Byte1(x) * 0x100 + Byte0(x);
    assert x == q4 * INT_RANGE + rest;
    ToIntOfCongruent(x, rest);
  }

  /** Two numbers that differ by a multiple of 2^32 wrap to the same int. */
  lemma ToIntOfCongruent(x: int, y: int)
    requires IsInt(x) && (y - x) % INT_RANGE == 0
    ensures ToInt(y) == x
  {
    var r := ToInt(y);
    var a, b := (y - r) / INT_RANGE, (y - x) / INT_RANGE;
    assert x - r == INT_RANGE * (a - b);
  }

  /** The three indices form a permutation of 0, 1, 2. */
  predicate IsOrder3(i1: int, i2: int, i3: int)
  {
    0 <= i1 < 3 && 0 <= i2 < 3 && 0 <= i3 < 3 && i1 != i2 && i1 != i3 && i2 != i3
  }

  /** The four indices form a permutation of 0, 1, 2, 3. */
  predicate IsOrder4(i1: int, i2: int, i3: int, i4: int)
  {
    0 <= i1 < 4 && 0 <= i2 < 4 && 0 <= i3 < 4 && 0 <= i4 < 4 &&
    i1 != i2 && i1 != i3 && i1 != i4 && i2 != i3 && i2 != i4 && i3 != i4
  }

  /** The slot `ints2bytes` fills for one word: byte 0 at `i1`, byte 1 at `i2`, byte 2 at `i3`. */
  function Slot3(x: int, i1: int, i2: int, i3: int): (r: seq<int>)
    requires IsOrder3(i1, i2, i3)
    ensures |r| == 3 && r[i1] == Byte0(x) && r[i2] == Byte1(x) && r[i3] == Byte2(x)
  {
    [0, 0, 0][i1 := Byte0(x)][i2 := Byte1(x)][i3 := Byte2(x)]
  }

  /** The slot for one word with four bytes: byte 0 at `i1` up to byte 3 at `i4`. */
  function Slot4(x: int, i1: int, i2: int, i3: int, i4: int): (r: seq<int>)
    requires IsOrder4(i1, i2, i3, i4)
    ensures |r| == 4 && r[i1] == Byte0(x) && r[i2] == Byte1(x) && r[i3] == Byte2(x) && r[i4] == Byte3(x)
  {
    [0, 0, 0, 0][i1 := Byte0(x)][i2 := Byte1(x)][i3 := Byte2(x)][i4 := Byte3(x)]
  }

  /** Everything `ints2bytes` (3 bytes) writes: the slots of the words, one after the other. */
  function Unpack3(xs: seq<int>, i1: int, i2: int, i3: int): (r: seq<int>)
    requires IsOrder3(i1, i2, i3)
    ensures |r| == 3 * |xs|
  {
    if |xs| == 0 then [] else Unpack3(xs[..|xs| - 1], i1, i2, i3) + Slot3(xs[|xs| - 1], i1, i2, i3)
  }

  /** Everything `ints2bytes` (4 bytes) writes. */
  function Unpack4(xs: seq<int>, i1: int, i2: int, i3: int, i4: int): (r: seq<int>)
    requires IsOrder4(i1, i2, i3, i4)
    ensures |r| == 4 * |xs|
  {
    if |xs| == 0 then [] else Unpack4(xs[..|xs| - 1], i1, i2, i3, i4) + Slot4(xs[|xs| - 1], i1, i2, i3, i4)
  }

  /** A slice of a concatenation that lies in one of its parts. */
  lemma SliceOfConcat(p: seq<int>, q: seq<int>, lo: int, hi: int)
    requires 0 <= lo <= hi <= |p| + |q|
    ensures hi <= |p| ==> (p + q)[lo..hi] == p[lo..hi]
    ensures lo == |p| && hi == |p| + |q| ==> (p + q)[lo..hi] == q
  {
  }

  /** Slot `i` of the unpacked bytes holds word `i`. */
  lemma {:induction false} Unpack3Slots(xs: seq<int>, i1: int, i2: int, i3: int, i: int)
    requires IsOrder3(i1, i2, i3) && 0 <= i < |xs|
    ensures Unpack3(xs, i1, i2, i3)[3 * i..3 * i + 3] == Slot3(xs[i], i1, i2, i3)
  {
    var n := |xs| - 1;
    var front, last := Unpack3(xs[..n], i1, i2, i3), Slot3(xs[n], i1, i2, i3);
    assert Unpack3(xs, i1, i2, i3) == front + last;
    if i < n {
      Unpack3Slots(xs[..n], i1, i2, i3, i);
      assert xs[..n][i] == xs[i];
      SliceOfConcat(front, last, 3 * i, 3 * i + 3);
    } else {
      SliceOfConcat(front, last, 3 * i, 3 * i + 3);
    }
  }

  lemma {:induction false} Unpack4Slots(xs: seq<int>, i1: int, i2: int, i3: int, i4: int, i: int)
    requires IsOrder4(i1, i2, i3, i4) && 0 <= i < |xs|
    ensures Unpack4(xs, i1, i2, i3, i4)[4 * i..4 * i + 4] == Slot4(xs[i], i1, i2, i3, i4)
  {
    var n := |xs| - 1;
    var front, last := Unpack4(xs[..n], i1, i2, i3, i4), Slot4(xs[n], i1, i2, i3, i4);
    assert Unpack4(xs, i1, i2, i3, i4) == front + last;
    if i < n {
      Unpack4Slots(xs[..n], i1, i2, i3, i4, i);
      assert xs[..n][i] == xs[i];
      SliceOfConcat(front, last, 4 * i, 4 * i + 4);
    } else {
      SliceOfConcat(front, last, 4 * i, 4 * i + 4);
    }
  }

  /** One word of `bytes2int` (3 bytes): `in[i1] << 16 | in[i2] << 8 | in[i3]`, the fields being disjoint. */
  function Word3(slot: seq<int>, i1: int, i2: int, i3: int): (r: int)
    requires |slot| == 3 && 0 <= i1 < 3 && 0 <= i2 < 3 && 0 <= i3 < 3
    ensures 0 <= r < RANGE_24
  {
    ToByte(slot[i1]) * 0x1_0000 + ToByte(slot[i2]) * 0x100 + ToByte(slot[i3])
  }

  /**
   * One word of `bytes2int` (4 bytes): `in[i1] << 24 | in[i2] << 16 | in[i3] << 8 | in[i4]`;
   * the fields are disjoint, and the top one's shift wraps into the sign bit.
   */
  function Word4(slot: seq<int>, i1: int, i2: int, i3: int, i4: int): (r: int)
    requires |slot| == 4 && 0 <= i1 < 4 && 0 <= i2 < 4 && 0 <= i3 < 4 && 0 <= i4 < 4
    ensures IsInt(r)
  {
    ToInt(ToByte(slot[i1]) * 0x100_0000 + ToByte(slot[i2]) * 0x1_0000 + ToByte(slot[i3]) * 0x100 + ToByte(slot[i4]))
  }

  /** What `bytes2int` (3 bytes) returns: `in.length / 3` words, one per whole slot. */
  function Pack3(bytes: seq<int>, i1: int, i2: int, i3: int): (r: seq<int>)
    requires 0 <= i1 < 3 && 0 <= i2 < 3 && 0 <= i3 < 3
    ensures |r| == |bytes| / 3 && forall i :: 0 <= i < |r| ==> 0 <= r[i] < RANGE_24
  {
    seq(|bytes| / 3, i requires 0 <= i < |bytes| / 3 => Word3(bytes[3 * i..3 * i + 3], i1, i2, i3))
  }

  /** What `bytes2int` (4 bytes) returns: `in.length / 4` words, one per whole slot. */
  function Pack4(bytes: seq<int>, i1: int, i2: int, i3: int, i4: int): (r: seq<int>)
    requires 0 <= i1 < 4 && 0 <= i2 < 4 && 0 <= i3 < 4 && 0 <= i4 < 4
    ensures |r| == |bytes| / 4 && forall i :: 0 <= i < |r| ==> IsInt(r[i])
  {
    seq(|bytes| / 4, i requires 0 <= i < |bytes| / 4 => Word4(bytes[4 * i..4 * i + 4], i1, i2, i3, i4))
  }

  /**
   * Round trip, 3 bytes: gathering in the reverse of the order the bytes were
   * spread gives back each word's low 24 bits.
   */
  lemma RoundTrip3(xs: seq<int>, i1: int, i2: int, i3: int)
    requires IsOrder3(i1, i2, i3)
    ensures Pack3(Unpack3(xs, i1, i2, i3), i3, i2, i1) == seq(|xs|, i requires 0 <= i < |xs| => xs[i] % RANGE_24)
  {
    var bytes := Unpack3(xs, i1, i2, i3);
    var packed := Pack3(bytes, i3, i2, i1);
    assert |packed| == |xs|;
    forall i | 0 <= i < |xs|
      ensures packed[i] == xs[i] % RANGE_24
    {
      Unpack3Slots(xs, i1, i2, i3, i);
      var slot := bytes[3 * i..3 * i + 3];
      assert slot == Slot3(xs[i], i1, i2, i3);
      assert packed[i] == Word3(slot, i3, i2, i1);
      SlotRoundTrip3(xs[i], i1, i2, i3);
    }
  }

  /** One word spread into a three-byte slot and gathered back in the reverse order: its low 24 bits. */
  lemma SlotRoundTrip3(x: int, i1: int, i2: int, i3: int)
    requires IsOrder3(i1, i2, i3)
    ensures Word3(Slot3(x, i1, i2, i3), i3, i2, i1) == x % RANGE_24
  {
    LowBytesMakeLow24Bits(x);
  }

  /** Round trip, 4 bytes: gathering in the reverse order gives back every Java int exactly. */
  lemma RoundTrip4(xs: seq<int>, i1: int, i2: int, i3: int, i4: int)
    requires IsOrder4(i1, i2, i3, i4) && forall i :: 0 <= i < |xs| ==> IsInt(xs[i])
    ensures Pack4(Unpack4(xs, i1, i2, i3, i4), i4, i3, i2, i1) == xs
  {
    var bytes := Unpack4(xs, i1, i2, i3, i4);
    var packed := Pack4(bytes, i4, i3, i2, i1);
    assert |packed| == |xs|;
    forall i | 0 <= i < |xs|
      ensures packed[i] == xs[i]
    {
      Unpack4Slots(xs, i1, i2, i3, i4, i);
      var slot := bytes[4 * i..4 * i + 4];
      assert slot == Slot4(xs[i], i1, i2, i3, i4);
      assert packed[i] == Word4(slot, i4, i3, i2, i1);
      SlotRoundTrip4(xs[i], i1, i2, i3, i4);
    }
  }

  /** One word spread into a slot and gathered back in the reverse order. */
  lemma SlotRoundTrip4(x: int, i1: int, i2: int, i3: int, i4: int)
    requires IsOrder4(i1, i2, i3, i4) && IsInt(x)
    ensures Word4(Slot4(x, i1, i2, i3, i4), i4, i3, i2, i1) == x
  {
    FourBytesMakeTheInt(x);
  }

  /**
   * The orders the image code pairs up: BGR words spread as (0, 1, 2) and
   * gathered as (2, 1, 0), RGB words spread as (2, 1, 0) and gathered as
   * (0, 1, 2), and ARGB words spread as (2, 1, 0, 3) and gathered as (3, 0, 1, 2).
   */
  lemma ImageOrdersRoundTrip(xs: seq<int>)
    requires forall i :: 0 <= i < |xs| ==> IsInt(xs[i])
    ensures Pack3(Unpack3(xs, 0, 1, 2), 2, 1, 0) == seq(|xs|, i requires 0 <= i < |xs| => xs[i] % RANGE_24)
    ensures Pack3(Unpack3(xs, 2, 1, 0), 0, 1, 2) == seq(|xs|, i requires 0 <= i < |xs| => xs[i] % RANGE_24)
    ensures Pack4(Unpack4(xs, 2, 1, 0, 3), 3, 0, 1, 2) == xs
  {
    RoundTrip3(xs, 0, 1, 2);
    RoundTrip3(xs, 2, 1, 0);
    RoundTrip4(xs, 2, 1, 0, 3);
  }

  /** Two slots that agree at every position of an order are equal. */
  lemma SameCells3(s: seq<int>, t: seq<int>, i1: int, i2: int, i3: int)
    requires IsOrder3(i1, i2, i3) && |s| == 3 && |t| == 3
    requires s[i1] == t[i1] && s[i2] == t[i2] && s[i3] == t[i3]
    ensures s == t
  {
    forall j | 0 <= j < 3
      ensures s[j] == t[j]
    {
      assert j == i1 || j == i2 || j == i3;
    }
  }

  lemma SameCells4(s: seq<int>, t: seq<int>, i1: int, i2: int, i3: int, i4: int)
    requires IsOrder4(i1, i2, i3, i4) && |s| == 4 && |t| == 4
    requires s[i1] == t[i1] && s[i2] == t[i2] && s[i3] == t[i3] && s[i4] == t[i4]
    ensures s == t
  {
    forall j | 0 <= j < 4
      ensures s[j] == t[j]
    {
      assert j == i1 || j == i2 || j == i3 || j == i4;
    }
  }

  /** Two sequences with equal slices agree cell by cell there. */
  lemma SameSlice(a: seq<int>, b: seq<int>, lo: int, hi: int)
    requires 0 <= lo <= hi <= |a| && hi <= |b| && a[lo..hi] == b[lo..hi]
    ensures forall k :: lo <= k < hi ==> a[k] == b[k]
  {
    forall k | lo <= k < hi
      ensures a[k] == b[k]
    {
      assert a[k] == a[lo..hi][k - lo];
    }
  }

  /** Write one word's three bytes at `index + i1`, `index + i2` and `index + i3`. */
  method WriteSlot3(out: array<int>, index: int, value: int, i1: int, i2: int, i3: int)
    requires IsOrder3(i1, i2, i3) && 0 <= index && index + 3 <= out.Length
    modifies out
    ensures forall k :: 0 <= k < out.Length && !(index <= k < index + 3) ==> out[k] == old(out[k])
    ensures out[index..index + 3] == Slot3(value, i1, i2, i3)
  {
    var v := value;
    out[index + i1] := ToByte(v);
    v := Shr(v, 8);
    out[index + i2] := ToByte(v);
    v := Shr(v, 8);
    out[index + i3] := ToByte(v);
    SameCells3(out[index..index + 3], Slot3(value, i1, i2, i3), i1, i2, i3);
  }

  /** Write one word's four bytes at `index + i1` to `index + i4`. */
  method WriteSlot4(out: array<int>, index: int, value: int, i1: int, i2: int, i3: int, i4: int)
    requires IsOrder4(i1, i2, i3, i4) && 0 <= index && index + 4 <= out.Length
    modifies out
    ensures forall k :: 0 <= k < out.Length && !(index <= k < index + 4) ==> out[k] == old(out[k])
    ensures out[index..index + 4] == Slot4(value, i1, i2, i3, i4)
  {
    var v := value;
    out[index + i1] := ToByte(v);
    v := Shr(v, 8);
    out[index + i2] := ToByte(v);
    v := Shr(v, 8);
    out[index + i3] := ToByte(v);
    v := Shr(v, 8);
    out[index + i4] := ToByte(v);
    SameCells4(out[index..index + 4], Slot4(value, i1, i2, i3, i4), i1, i2, i3, i4);
  }

  /** Write one word's slot where the whole unpacked `bytes` has it. */
  method PutSlot3(out: array<int>, index: int, value: int, i1: int, i2: int, i3: int, ghost bytes: seq<int>)
    requires IsOrder3(i1, i2, i3) && 0 <= index && index + 3 <= out.Length
    requires index + 3 <= |bytes| && bytes[index..index + 3] == Slot3(value, i1, i2, i3)
    modifies out
    ensures forall k :: 0 <= k < out.Length && !(index <= k < index + 3) ==> out[k] == old(out[k])
    ensures forall k :: index <= k < index + 3 ==> out[k] == bytes[k]
  {
    WriteSlot3(out, index, value, i1, i2, i3);
    SameSlice(out[..], bytes, index, index + 3);
  }

  /** `ints2bytes(in, out, index1, index2, index3)`: fill the first `3 * in.length` bytes of `out`. */
  method Ints2Bytes3(input: seq<int>, out: array<int>, i1: int, i2: int, i3: int)
    requires IsOrder3(i1, i2, i3) && 3 * |input| <= out.Length
    modifies out
    ensures out[..3 * |input|] == Unpack3(input, i1, i2, i3)
    ensures out[3 * |input|..] == old(out[3 * |input|..])
  {
    ghost var bytes := Unpack3(input, i1, i2, i3);
    for i := 0 to |input|
      invariant forall k :: 0 <= k < 3 * i ==> out[k] == bytes[k]
      invariant forall k :: 3 * i <= k < out.Length ==> out[k] == old(out[k])
    {
      var index := 3 * i;
      Unpack3Slots(input, i1, i2, i3, i);
      PutSlot3(out, index, input[i], i1, i2, i3, bytes);
    }
  }

  /** Write one word's slot where the whole unpacked `bytes` has it. */
  method PutSlot4(out: array<int>, index: int, value: int, i1: int, i2: int, i3: int, i4: int, ghost bytes: seq<int>)
    requires IsOrder4(i1, i2, i3, i4) && 0 <= index && index + 4 <= out.Length
    requires index + 4 <= |bytes| && bytes[index..index + 4] == Slot4(value, i1, i2, i3, i4)
    modifies out
    ensures forall k :: 0 <= k < out.Length && !(index <= k < index + 4) ==> out[k] == old(out[k])
    ensures forall k :: index <= k < index + 4 ==> out[k] == bytes[k]
  {
    WriteSlot4(out, index, value, i1, i2, i3, i4);
    SameSlice(out[..], bytes, index, index + 4);
  }

  /** `ints2bytes(in, out, index1, index2, index3, index4)`: fill the first `4 * in.length` bytes of `out`. */
  method Ints2Bytes4(input: seq<int>, out: array<int>, i1: int, i2: int, i3: int, i4: int)
    requires IsOrder4(i1, i2, i3, i4) && 4 * |input| <= out.Length
    modifies out
    ensures out[..4 * |input|] == Unpack4(input, i1, i2, i3, i4)
    ensures out[4 * |input|..] == old(out[4 * |input|..])
  {
    ghost var bytes := Unpack4(input, i1, i2, i3, i4);
    for i := 0 to |input|
      invariant forall k :: 0 <= k < 4 * i ==> out[k] == bytes[k]
      invariant forall k :: 4 * i <= k < out.Length ==> out[k] == old(out[k])
    {
      var index := 4 * i;
      Unpack4Slots(input, i1, i2, i3, i4, i);
      PutSlot4(out, index, input[i], i1, i2, i3, i4, bytes);
    }
  }

  /** `bytes2int(in, index1, index2, index3)`: a new array of `in.length / 3` words. */
  method Bytes2Int3(input: seq<int>, i1: int, i2: int, i3: int) returns (out: array<int>)
    requires 0 <= i1 < 3 && 0 <= i2 < 3 && 0 <= i3 < 3
    ensures fresh(out) && out[..] == Pack3(input, i1, i2, i3)
  {
    out := new int[|input| / 3];
    for i := 0 to out.Length
      invariant forall k :: 0 <= k < i ==> out[k] == Pack3(input, i1, i2, i3)[k]
    {
      var index := i * 3;
      var b1 := ToByte(input[index + i1]) * 0x1_0000;
      var b2 := ToByte(input[index + i2]) * 0x100;
      var b3 := ToByte(input[index + i3]);
      out[i] := b1 + b2 + b3;
    }
  }

  /** `bytes2int(in, index1, index2, index3, index4)`: a new array of `in.length / 4` words. */
  method Bytes2Int4(input: seq<int>, i1: int, i2: int, i3: int, i4: int) returns (out: array<int>)
    requires 0 <= i1 < 4 && 0 <= i2 < 4 && 0 <= i3 < 4 && 0 <= i4 < 4
    ensures fresh(out) && out[..] == Pack4(input, i1, i2, i3, i4)
  {
    out := new int[|input| / 4];
    for i := 0 to out.Length
      invariant forall k :: 0 <= k < i ==> out[k] == Pack4(input, i1, i2, i3, i4)[k]
    {
      var index := i * 4;
      var b1 := ToByte(input[index + i1]) * 0x100_0000;
      var b2 := ToByte(input[index + i2]) * 0x1_0000;
      var b3 := ToByte(input[index + i3]) * 0x100;
      var b4 := ToByte(input[index + i4]);
      ghost var slot := input[index..index + 4];
      assert slot[i1] == input[index + i1] && slot[i2] == input[index + i2] &&
             slot[i3] == input[index + i3] && slot[i4] == input[index + i4];
      out[i] := ToInt(b1 + b2 + b3 + b4);
      assert out[i] == Word4(slot, i1, i2, i3, i4);
    }
  }

  // java.awt.image.BufferedImage type codes used by setBGRPixels
  const TYPE_INT_RGB: int := 1
  const TYPE_INT_ARGB: int := 2
  const TYPE_INT_ARGB_PRE: int := 3
  const TYPE_INT_BGR: int := 4
  const TYPE_3BYTE_BGR: int := 5
  const TYPE_4BYTE_ABGR: int := 6
  const TYPE_4BYTE_ABGR_PRE: int := 7
  const TYPE_BYTE_GRAY: int := 10

  /** What `setBGRPixels` hands to the image. */
  datatype PixelWrite =
    | WriteBytes                              // the byte image takes the bytes as they are
    | WriteNothing                            // an empty region
    | WriteWords(words: seq<int>, raster: bool)  // packed words, through the raster or through setRGB

  /** The words `setBGRPixels` packs for an image type. */
  function PackedFor(imageType: int, bgr: seq<int>): (words: seq<int>)
    ensures |words| == |bgr| / (if imageType == TYPE_INT_ARGB || imageType == TYPE_INT_ARGB_PRE then 4 else 3)
  {
    if imageType == TYPE_INT_BGR then Pack3(bgr, 2, 1, 0)
    else if imageType == TYPE_INT_ARGB || imageType == TYPE_INT_ARGB_PRE then Pack4(bgr, 3, 0, 1, 2)
    else Pack3(bgr, 0, 1, 2)
  }

  /**
   * `setBGRPixels`: byte images take the bytes directly; otherwise the bytes
   * are packed, an empty region writes nothing, fewer words than `w * h` (an
   * int product) is an `IllegalArgumentException`, and the int image types are
   * written through the raster, the others through `setRGB`.
   */
  function SetBGRPixels(imageType: int, bgr: seq<int>, w: int, h: int): (r: Result<PixelWrite>)
    ensures imageType in {TYPE_3BYTE_BGR, TYPE_4BYTE_ABGR, TYPE_4BYTE_ABGR_PRE, TYPE_BYTE_GRAY} ==> r == Success(WriteBytes)
    ensures imageType !in {TYPE_3BYTE_BGR, TYPE_4BYTE_ABGR, TYPE_4BYTE_ABGR_PRE, TYPE_BYTE_GRAY} ==>
      (w == 0 || h == 0 ==> r == Success(WriteNothing)) &&
      (w != 0 && h != 0 ==> (r.Failure? <==> |PackedFor(imageType, bgr)| < ToInt(w * h)))
    ensures r.Success? && r.value.WriteWords? ==> r.value.words == PackedFor(imageType, bgr)
  {
    if imageType in {TYPE_3BYTE_BGR, TYPE_4BYTE_ABGR, TYPE_4BYTE_ABGR_PRE, TYPE_BYTE_GRAY} then Success(WriteBytes)
    else
      var pixels := PackedFor(imageType, bgr);
      if w == 0 || h == 0 then Success(WriteNothing)
      else if |pixels| < ToInt(w * h) then Failure("IllegalArgumentException: pixels array must have a length >= w*h")
      else Success(WriteWords(pixels, imageType in {TYPE_INT_ARGB, TYPE_INT_RGB, TYPE_INT_ARGB_PRE, TYPE_INT_BGR}))
  }
}
