/**
 * Java's primitive arithmetic, written out over Dafny's unbounded integers.
 *
 * A Java `byte` is kept in its unsigned view `b & 0xFF` (0..255), which is how
 * every core routine reads bytes; the byte -1 is therefore 255.  A `short` and
 * an `int` are kept as signed integers in their two's-complement ranges.
 */
module Java {

  const BYTE_RANGE: int := 0x100
  const SHORT_RANGE: int := 0x1_0000
  const INT_RANGE: int := 0x1_0000_0000

  predicate IsByte(x: int) { 0 <= x < BYTE_RANGE }
  predicate IsShort(x: int) { -0x8000 <= x < 0x8000 }
  predicate IsInt(x: int) { -0x8000_0000 <= x < 0x8000_0000 }

  /** `((byte)x) & 0xFF`: the low eight bits of `x`. */
  function ToByte(x: int): (r: int)
    ensures IsByte(r) && (x - r) % BYTE_RANGE == 0
    ensures IsByte(x) ==> r == x
  {
    x % BYTE_RANGE
  }

  /** `(short)x`: the low sixteen bits of `x`, read as a signed number. */
  function ToShort(x: int): (r: int)
    ensures IsShort(r) && (x - r) % SHORT_RANGE == 0
    ensures IsShort(x) ==> r == x
  {
    (x + 0x8000) % SHORT_RANGE - 0x8000
  }

  /** `(int)x` for a wider integer: the low 32 bits, read as a signed number. */
  function ToInt(x: int): (r: int)
    ensures IsInt(r) && (x - r) % INT_RANGE == 0
    ensures IsInt(x) ==> r == x
  {
    (x + 0x8000_0000) % INT_RANGE - 0x8000_0000
  }

  /** `x & 0xFFFF`: the unsigned low sixteen bits, used to index 65536-entry tables. */
  function LowShort(x: int): (r: int)
    ensures 0 <= r < SHORT_RANGE && (x - r) % SHORT_RANGE == 0
  {
    x % SHORT_RANGE
  }

  function Pow2(k: nat): (r: nat)
    ensures r >= 1
  {
    if k == 0 then 1 else 2 * Pow2(k - 1)
  }

  lemma MulRealMonotone(x: real, y: real, w: real)
    requires x <= y && w >= 0.0
    ensures x * w <= y * w
  {
  }

  /** The two shift distances of the fixed-point code. */
  lemma Pow2Constants()
    ensures Pow2(7) == 128 && Pow2(16) == 65536
  {
    assert Pow2(4) == 16;
    assert Pow2(8) == 256;
    assert Pow2(12) == 4096;
  }

  /** Java's `x >> k`: an arithmetic shift, which rounds toward negative infinity. */
  function Shr(x: int, k: nat): (r: int)
    ensures r * Pow2(k) <= x < (r + 1) * Pow2(k)
  {
    x / Pow2(k)
  }

  /** Java's integer `/`, which truncates toward zero (Dafny's `/` is Euclidean). */
  function Quot(n: int, d: int): (q: int)
    requires d != 0
    ensures 0 <= n && 0 < d ==> q * d <= n < (q + 1) * d
    ensures (n >= 0) == (d > 0) || n == 0 || q <= 0
  {
    if (n >= 0) == (d > 0) then Abs(n) / Abs(d) else -(Abs(n) / Abs(d))
  }

  function Abs(x: int): (r: nat)
  {
    if x < 0 then -x else x
  }

  function Max(a: int, b: int): (r: int)
    ensures r >= a && r >= b && (r == a || r == b)
  {
    if a >= b then a else b
  }

  /** `Math.floor`, as an integer. */
  function Floor(x: real): (r: int)
    ensures r as real <= x < r as real + 1.0
  {
    x.Floor
  }

  /** `Math.ceil`, as an integer. */
  function Ceil(x: real): (r: int)
    ensures x <= r as real < x + 1.0
  {
    -((-x).Floor)
  }

  /** A floating-point to integer cast, which truncates toward zero (saturation is not modelled). */
  function Trunc(x: real): (r: int)
    ensures 0.0 <= x ==> r == Floor(x)
    ensures x < 0.0 ==> r == Ceil(x)
  {
    if x >= 0.0 then x.Floor else -((-x).Floor)
  }

  /** An IEEE-754 double seen through its value: a real number, NaN or an infinity. */
  datatype Double = Finite(value: real) | NaN | PosInf | NegInf {
    predicate IsNaN() { NaN? }
    predicate IsInfinite() { PosInf? || NegInf? }

    /** `this >= x` for a finite `x`; every comparison with NaN is false. */
    predicate AtLeast(x: real) {
      match this
      case Finite(v) => v >= x
      case PosInf => true
      case _ => false
    }
  }

  /** `a / (double)b` for two Java ints, including division by zero. */
  function DivInts(a: int, b: int): (r: Double)
    ensures b != 0 ==> r == Finite(a as real / b as real)
    ensures b == 0 ==> (r.NaN? <==> a == 0)
  {
    if b != 0 then Finite(a as real / b as real)
    else if a > 0 then PosInf
    else if a < 0 then NegInf
    else NaN
  }

  /** `Math.max(double, double)`: NaN if either argument is NaN. */
  function MaxD(a: Double, b: Double): (r: Double)
    ensures r.NaN? <==> a.NaN? || b.NaN?
    ensures !r.NaN? ==> forall x: real :: r.AtLeast(x) <==> a.AtLeast(x) || b.AtLeast(x)
  {
    match (a, b)
    case (NaN, _) => NaN
    case (_, NaN) => NaN
    case (PosInf, _) => PosInf
    case (_, PosInf) => PosInf
    case (NegInf, _) => b
    case (_, NegInf) => a
    case (Finite(x), Finite(y)) => if x >= y then a else b
  }

  /** Dividing `q * n + r` by `n` gives back `q` and `r`. */
  lemma DivModOfMultiple(q: int, r: int, n: int)
    requires 0 <= r < n
    ensures (q * n + r) / n == q && (q * n + r) % n == r
  {
    var x := q * n + r;
    var d, m := x / n, x % n;
    assert (d - q) * n == r - m;
    if d - q >= 1 {
      MulIsMonotone(1, d - q, n);
    } else if d - q <= -1 {
      MulIsMonotone(d - q, -1, n);
    }
  }

  lemma MulIsMonotone(x: int, y: int, n: int)
    requires x <= y && n >= 0
    ensures x * n <= y * n
  {
  }

  /** The unsigned view of a Java int: its 32 bits read as a natural below 2^32. */
  lemma UnsignedOfInt(x: int)
    requires IsInt(x)
    ensures x % INT_RANGE == if x >= 0 then x else x + INT_RANGE
  {
    if x >= 0 {
      DivModOfMultiple(0, x, INT_RANGE);
    } else {
      DivModOfMultiple(-1, x + INT_RANGE, INT_RANGE);
    }
  }

  /** The Java int whose 32 bits, read unsigned, are `u`. */
  lemma SignedOfUnsigned(u: int)
    requires 0 <= u < INT_RANGE
    ensures ToInt(u) == if u < 0x8000_0000 then u else u - INT_RANGE
  {
    if u < 0x8000_0000 {
      DivModOfMultiple(0, u + 0x8000_0000, INT_RANGE);
    } else {
      DivModOfMultiple(1, u - 0x8000_0000, INT_RANGE);
    }
  }

  lemma Pow2Is32Bits()
    ensures Pow2(32) == INT_RANGE
  {
    Pow2Constants();
    assert Pow2(20) == 0x10_0000;
    assert Pow2(24) == 0x100_0000;
    assert Pow2(28) == 0x1000_0000;
  }

  /** The exclusive or of the low `n` bits of two naturals, bit by bit from the lowest. */
  function XorLow(a: nat, b: nat, n: nat): (r: nat)
    ensures r < Pow2(n)
  {
    if n == 0 then 0 else (if a % 2 == b % 2 then 0 else 1) + 2 * XorLow(a / 2, b / 2, n - 1)
  }

  lemma {:induction false} XorLowCommutes(a: nat, b: nat, n: nat)
    ensures XorLow(a, b, n) == XorLow(b, a, n)
  {
    if n > 0 {
      XorLowCommutes(a / 2, b / 2, n - 1);
    }
  }

  /** Below 2^n, xoring with a fixed value loses nothing. */
  lemma {:induction false} XorLowIsInjective(x: nat, a: nat, b: nat, n: nat)
    requires a < Pow2(n) && b < Pow2(n) && XorLow(x, a, n) == XorLow(x, b, n)
    ensures a == b
  {
    if n > 0 {
      var ra, rb := XorLow(x / 2, a / 2, n - 1), XorLow(x / 2, b / 2, n - 1);
      var ba := if x % 2 == a % 2 then 0 else 1;
      var bb := if x % 2 == b % 2 then 0 else 1;
      assert ba + 2 * ra == bb + 2 * rb;
      assert ba == bb && ra == rb;
      XorLowIsInjective(x / 2, a / 2, b / 2, n - 1);
    }
  }

  /** Java's `a ^ b` on two ints. */
  function Xor(a: int, b: int): (r: int)
    requires IsInt(a) && IsInt(b)
    ensures IsInt(r)
  {
    ToInt(XorLow(a % INT_RANGE, b % INT_RANGE, 32))
  }

  lemma XorCommutes(a: int, b: int)
    requires IsInt(a) && IsInt(b)
    ensures Xor(a, b) == Xor(b, a)
  {
    XorLowCommutes(a % INT_RANGE, b % INT_RANGE, 32);
  }

  /** Xor with a fixed value is one-to-one: no two ints give the same result. */
  lemma XorIsInjective(x: int, a: int, b: int)
    requires IsInt(x) && IsInt(a) && IsInt(b) && Xor(x, a) == Xor(x, b)
    ensures a == b
  {
    var ux, ua, ub := x % INT_RANGE, a % INT_RANGE, b % INT_RANGE;
    Pow2Is32Bits();
    SignedOfUnsigned(XorLow(ux, ua, 32));
    SignedOfUnsigned(XorLow(ux, ub, 32));
    XorLowIsInjective(ux, ua, ub, 32);
    UnsignedOfInt(a);
    UnsignedOfInt(b);
  }


  /** The decimal digit `d` as a character. */
  function DigitChar(d: int): char
    requires 0 <= d < 10
  {
    ('0' as int + d) as char
  }

  predicate IsDigit(ch: char) { '0' <= ch <= '9' }

  /** The decimal digits of `n`, most significant first, without leading zeros. */
  function Digits(n: nat): (s: seq<char>)
    ensures |s| >= 1 && forall i :: 0 <= i < |s| ==> IsDigit(s[i])
  {
    if n < 10 then [DigitChar(n)] else Digits(n / 10) + [DigitChar(n % 10)]
  }

  /** `Integer.toString(n)`: a minus sign for negative numbers, then the digits. */
  function IntToString(n: int): string
  {
    if n < 0 then "-" + Digits(-n) else Digits(n)
  }

  /** The number a string of decimal digits denotes. */
  function DigitsValue(s: seq<char>): int
  {
    if |s| == 0 then 0 else 10 * DigitsValue(s[..|s| - 1]) + (s[|s| - 1] as int - '0' as int)
  }

  /** `Integer.parseInt` on the strings `IntToString` produces. */
  function ParseInt(s: string): int
  {
    if |s| > 0 && s[0] == '-' then -DigitsValue(s[1..]) else DigitsValue(s)
  }

  lemma {:induction false} DigitsRoundTrip(n: nat)
    ensures DigitsValue(Digits(n)) == n
  {
    if n >= 10 {
      DigitsRoundTrip(n / 10);
      var s := Digits(n);
      assert s[..|s| - 1] == Digits(n / 10);
    }
  }

  /** `Integer.toString` loses nothing: parsing its output gives the number back. */
  lemma IntToStringRoundTrip(n: int)
    ensures ParseInt(IntToString(n)) == n
  {
    if n < 0 {
      DigitsRoundTrip(-n);
      assert IntToString(n)[1..] == Digits(-n);
    } else {
      DigitsRoundTrip(n);
      assert IsDigit(Digits(n)[0]);
    }
  }

  /** Distinct numbers have distinct decimal strings. */
  lemma IntToStringIsInjective(m: int, n: int)
    requires IntToString(m) == IntToString(n)
    ensures m == n
  {
    IntToStringRoundTrip(m);
    IntToStringRoundTrip(n);
  }

  /** A decimal string is made of digits, after an optional leading minus sign. */
  lemma IntToStringIsNumeral(n: int)
    ensures |IntToString(n)| >= 1
    ensures IntToString(n)[0] == '-' || IsDigit(IntToString(n)[0])
    ensures forall i :: 1 <= i < |IntToString(n)| ==> IsDigit(IntToString(n)[i])
  {
    if n < 0 {
      assert forall i :: 1 <= i < |IntToString(n)| ==> IntToString(n)[i] == Digits(-n)[i - 1];
    }
  }
}
