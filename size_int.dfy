/**
 * `SizeInt`: an immutable pair of Java ints, compared by value and hashed with
 * an FNV-style mix in 32-bit wrap-around arithmetic.
 */
module SizeInts {
  import opened Java

  datatype SizeInt = SizeInt(width: int, height: int) {
    /** Both components are Java ints. */
    predicate Valid() { IsInt(width) && IsInt(height) }
  }

  /** What `equals` can be handed: another size, or any other object (or null). */
  datatype Object = SizeObject(size: SizeInt) | OtherObject

  /** `equals`: true for a size with the same width and height, false for anything else. */
  function Equals(a: SizeInt, o: Object): (eq: bool)
    ensures eq <==> o == SizeObject(a)
  {
    match o
    case SizeObject(b) => a.width == b.width && a.height == b.height
    case OtherObject => false
  }

  /** `equals` is value equality, so it is reflexive and symmetric, and never holds for another type. */
  lemma EqualsIsValueEquality(a: SizeInt, b: SizeInt)
    ensures Equals(a, SizeObject(b)) <==> a == b
    ensures Equals(a, SizeObject(a))
    ensures Equals(a, SizeObject(b)) == Equals(b, SizeObject(a))
    ensures !Equals(a, OtherObject)
  {
  }

  /** The FNV-1 32-bit prime and the seed of `hashCode`. */
  const PRIME: int := 0x01000193
  const SEED: int := 0x4C1DF00D

  /** `hash *= 0x01000193` on a Java int. */
  function MixStep(hash: int): (r: int)
    ensures IsInt(r)
  {
    ToInt(hash * PRIME)
  }

  /** `hashCode`: seed, multiply, xor the width, multiply, xor the height, all on 32 bits. */
  function HashCode(s: SizeInt): (h: int)
    requires s.Valid()
    ensures IsInt(h)
  {
    var hash := MixStep(SEED);
    var hash := Xor(hash, s.width);
    var hash := MixStep(hash);
    Xor(hash, s.height)
  }

  /** Equal sizes hash alike, as `equals` and `hashCode` must agree. */
  lemma EqualSizesHashAlike(a: SizeInt, b: SizeInt)
    requires a.Valid() && b.Valid() && Equals(a, SizeObject(b))
    ensures HashCode(a) == HashCode(b)
  {
  }

  /** The inverse of the prime modulo 2^32 (the prime is odd, so it has one). */
  const PRIME_INVERSE: int := 0x359C449B

  /** Multiplying by the prime on 32 bits is one-to-one. */
  lemma MixStepIsInjective(a: int, b: int)
    requires IsInt(a) && IsInt(b) && MixStep(a) == MixStep(b)
    ensures a == b
  {
    var d := a - b;
    var q := (a * PRIME - MixStep(a)) / INT_RANGE - (b * PRIME - MixStep(b)) / INT_RANGE;
    assert (a * PRIME - MixStep(a)) % INT_RANGE == 0;
    assert (b * PRIME - MixStep(b)) % INT_RANGE == 0;
    assert d * PRIME == q * INT_RANGE;
    assert PRIME * PRIME_INVERSE == 1 + 3513497 * INT_RANGE;
    MultipleOfRange(d, q * PRIME_INVERSE - d * 3513497);
  }

  lemma MultipleOfRange(d: int, k: int)
    requires -INT_RANGE < d < INT_RANGE
    requires d * PRIME * PRIME_INVERSE == (k + d * 3513497) * INT_RANGE
    requires PRIME * PRIME_INVERSE == 1 + 3513497 * INT_RANGE
    ensures d == 0
  {
    assert d * (PRIME * PRIME_INVERSE) == d + d * 3513497 * INT_RANGE;
    assert d == k * INT_RANGE;
    if k > 0 {
      MulIsMonotone(1, k, INT_RANGE);
    } else if k < 0 {
      MulIsMonotone(k, -1, INT_RANGE);
    }
  }

  /**
   * The hash separates sizes that differ in one dimension: two sizes with the
   * same height and different widths, or the same width and different heights,
   * never collide.
   */
  lemma HashSeparatesOneDimension(a: SizeInt, b: SizeInt)
    requires a.Valid() && b.Valid() && a != b
    requires a.width == b.width || a.height == b.height
    ensures HashCode(a) != HashCode(b)
  {
    var h1 := MixStep(SEED);
    if HashCode(a) == HashCode(b) {
      if a.width == b.width {
        XorIsInjective(MixStep(Xor(h1, a.width)), a.height, b.height);
      } else {
        assert Xor(MixStep(Xor(h1, a.width)), a.height) == Xor(MixStep(Xor(h1, b.width)), a.height);
        XorCommutes(MixStep(Xor(h1, a.width)), a.height);
        XorCommutes(MixStep(Xor(h1, b.width)), a.height);
        XorIsInjective(a.height, MixStep(Xor(h1, a.width)), MixStep(Xor(h1, b.width)));
        MixStepIsInjective(Xor(h1, a.width), Xor(h1, b.width));
        XorIsInjective(h1, a.width, b.width);
      }
    }
  }

  /** `toString`: "(width, height)". */
  function ToString(s: SizeInt): (r: string)
    ensures |r| >= 6 && r[0] == '(' && r[|r| - 1] == ')'
  {
    IntToStringIsNumeral(s.width);
    IntToStringIsNumeral(s.height);
    "(" + IntToString(s.width) + ", " + IntToString(s.height) + ")"
  }

  /** The string names the size: reading the numbers back out of it gives width and height. */
  lemma ToStringNamesTheSize(s: SizeInt)
    ensures var r := ToString(s);
      var w, h := IntToString(s.width), IntToString(s.height);
      r == "(" + w + ", " + h + ")" && ParseInt(r[1..1 + |w|]) == s.width &&
      ParseInt(r[3 + |w|..|r| - 1]) == s.height
  {
    var r := ToString(s);
    var w, h := IntToString(s.width), IntToString(s.height);
    assert r[1..1 + |w|] == w;
    assert r[3 + |w|..|r| - 1] == h;
    IntToStringRoundTrip(s.width);
    IntToStringRoundTrip(s.height);
  }
}
