/**
 * Writes into a buffer of samples, stated as a relation between its contents
 * before and after: `content` replaces the samples from `lo` on and every
 * other sample keeps its value.
 */
module Buffers {
  ghost predicate Written(out: seq<int>, before: seq<int>, lo: int, content: seq<int>)
  {
    0 <= lo && lo + |content| <= |before| && out == before[..lo] + content + before[lo + |content|..]
  }

  /** A write seen sample by sample: the written range holds `content`, the rest is unchanged. */
  lemma WrittenMeans(out: seq<int>, before: seq<int>, lo: int, content: seq<int>)
    requires Written(out, before, lo, content)
    ensures |out| == |before| && out[lo..lo + |content|] == content
    ensures forall j :: 0 <= j < |out| && !(lo <= j < lo + |content|) ==> out[j] == before[j]
  {
    assert |out| == lo + |content| + (|before| - lo - |content|);
    forall j | 0 <= j < |out| && !(lo <= j < lo + |content|)
      ensures out[j] == before[j]
    {
      if j < lo {
        assert out[j] == before[..lo][j];
      } else {
        assert out[j] == before[lo + |content|..][j - lo - |content|];
      }
    }
  }

  /** The converse: a buffer that agrees sample by sample with a write is that write. */
  lemma WrittenFromSamples(out: seq<int>, before: seq<int>, lo: int, content: seq<int>)
    requires 0 <= lo && lo + |content| <= |before| == |out|
    requires forall j :: lo <= j < lo + |content| ==> out[j] == content[j - lo]
    requires forall j :: 0 <= j < |out| && !(lo <= j < lo + |content|) ==> out[j] == before[j]
    ensures Written(out, before, lo, content)
  {
    var w := before[..lo] + content + before[lo + |content|..];
    assert |w| == |out|;
    forall j | 0 <= j < |out|
      ensures out[j] == w[j]
    {
      if j < lo {
        assert w[j] == before[j];
      } else if j < lo + |content| {
        assert w[j] == content[j - lo];
      } else {
        assert w[j] == before[j];
      }
    }
    assert out == w;
  }

  /** Two writes side by side are one write of both contents. */
  lemma WrittenAppend(before: seq<int>, mid: seq<int>, out: seq<int>, lo: int, a: seq<int>, b: seq<int>)
    requires Written(mid, before, lo, a) && Written(out, mid, lo + |a|, b)
    ensures Written(out, before, lo, a + b)
  {
    var hi := lo + |a| + |b|;
    assert mid[..lo + |a|] == before[..lo] + a;
    assert mid[hi..] == before[hi..];
    assert out == before[..lo] + a + b + before[hi..];
  }

  /** In a sequence that starts with `front + part`, entry `i` of `part` sits `|front|` further on. */
  lemma ExtensionAt(whole: seq<int>, front: seq<int>, part: seq<int>, i: int)
    requires front + part <= whole && 0 <= i < |part|
    ensures |front| + i < |whole| && whole[|front| + i] == part[i]
  {
    assert whole[|front| + i] == (front + part)[|front| + i];
  }

  /** The samples of every pixel `(x, y)` of an image, indexed `(y, x)`. */
  type PixelMap = (int, int) -> seq<int>

  /** Every pixel has `c` samples. */
  ghost predicate HasChannels(pixels: PixelMap, c: int)
  {
    forall y, x :: |pixels(y, x)| == c
  }

  /**
   * `n * m`, written as repeated addition so that the proofs about buffer
   * offsets stay within linear arithmetic; `TimesIsProduct` connects the two.
   */
  function Times(n: nat, m: int): (r: int)
    ensures m >= 0 ==> r >= 0
  {
    if n == 0 then 0 else Times(n - 1, m) + m
  }

  lemma {:induction false} TimesIsProduct(n: nat, m: int)
    ensures Times(n, m) == n * m
  {
    if n > 0 {
      TimesIsProduct(n - 1, m);
    }
  }

  /** The first `x` pixels of row `y`, one after the other. */
  function PixelRow(pixels: PixelMap, y: int, x: nat): seq<int>
  {
    if x == 0 then [] else PixelRow(pixels, y, x - 1) + pixels(y, x - 1)
  }

  /** The `count` rows from row `begin` on, `width` pixels each, one after the other. */
  function PixelRows(pixels: PixelMap, width: nat, begin: int, count: nat): seq<int>
  {
    if count == 0 then [] else PixelRows(pixels, width, begin, count - 1) + PixelRow(pixels, begin + count - 1, width)
  }

  /** A row of `x` pixels of `c` samples holds `x * c` samples. */
  lemma {:induction false} RowLength(pixels: PixelMap, c: int, y: int, x: nat)
    requires HasChannels(pixels, c)
    ensures |PixelRow(pixels, y, x)| == Times(x, c)
  {
    if x > 0 {
      RowLength(pixels, c, y, x - 1);
    }
  }

  /** `count` rows of `width` pixels of `c` samples hold `count * width * c` samples. */
  lemma {:induction false} RowsLength(pixels: PixelMap, c: int, width: nat, begin: int, count: nat)
    requires HasChannels(pixels, c)
    ensures |PixelRows(pixels, width, begin, count)| == Times(count, Times(width, c))
  {
    if count > 0 {
      RowsLength(pixels, c, width, begin, count - 1);
      RowLength(pixels, c, begin + count - 1, width);
    }
  }

  /** Appending pixels only extends a row: what is laid out stays. */
  lemma {:induction false} RowIsPrefix(pixels: PixelMap, y: int, x: nat, x': nat)
    requires x <= x'
    ensures PixelRow(pixels, y, x) <= PixelRow(pixels, y, x')
  {
    if x < x' {
      RowIsPrefix(pixels, y, x, x' - 1);
    }
  }

  /** Appending rows only extends the rows: what is laid out stays. */
  lemma {:induction false} RowsIsPrefix(pixels: PixelMap, width: nat, begin: int, count: nat, count': nat)
    requires count <= count'
    ensures PixelRows(pixels, width, begin, count) <= PixelRows(pixels, width, begin, count')
  {
    if count < count' {
      RowsIsPrefix(pixels, width, begin, count, count' - 1);
    }
  }

  /** Sample `i` of pixel `p` of row `y` follows the samples of the `p` pixels before it. */
  lemma RowAt(pixels: PixelMap, y: int, x: nat, p: nat, i: int)
    requires p < x && 0 <= i < |pixels(y, p)|
    ensures |PixelRow(pixels, y, p)| + i < |PixelRow(pixels, y, x)|
    ensures PixelRow(pixels, y, x)[|PixelRow(pixels, y, p)| + i] == pixels(y, p)[i]
  {
    RowIsPrefix(pixels, y, p + 1, x);
    ExtensionAt(PixelRow(pixels, y, x), PixelRow(pixels, y, p), pixels(y, p), i);
  }

  /** Sample `i` of pixel `x` of row `begin + r` follows the `r` rows and the `x` pixels before it. */
  lemma RowsAt(pixels: PixelMap, width: nat, begin: int, count: nat, r: nat, x: nat, i: int)
    requires r < count && x < width && 0 <= i < |pixels(begin + r, x)|
    ensures |PixelRows(pixels, width, begin, r)| + |PixelRow(pixels, begin + r, x)| + i < |PixelRows(pixels, width, begin, count)|
    ensures PixelRows(pixels, width, begin, count)[|PixelRows(pixels, width, begin, r)| + |PixelRow(pixels, begin + r, x)| + i] ==
      pixels(begin + r, x)[i]
  {
    RowsIsPrefix(pixels, width, begin, r + 1, count);
    RowAt(pixels, begin + r, width, x, i);
    ExtensionAt(PixelRows(pixels, width, begin, count), PixelRows(pixels, width, begin, r),
                PixelRow(pixels, begin + r, width), |PixelRow(pixels, begin + r, x)| + i);
  }
}

