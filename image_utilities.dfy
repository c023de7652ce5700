/**
 * `ImageUtilities`: the names of AWT's data-buffer, colour-space and image type
 * codes, the buffered-image type for a component count, the interleaved
 * channel offsets of a byte image, the file-name test that routes a file to the
 * GIF loader, and the height derived from a flat pixel array.
 */
module ImageUtility {
  import opened Java
  import opened Wrappers
  import AnimationFrames

  // java.awt.image.DataBuffer type codes
  const TYPE_BYTE: int := 0
  const TYPE_USHORT: int := 1
  const TYPE_SHORT: int := 2
  const TYPE_INT: int := 3
  const TYPE_FLOAT: int := 4
  const TYPE_DOUBLE: int := 5
  const TYPE_UNDEFINED: int := 32

  // java.awt.color.ColorSpace type codes
  const CS_sRGB: int := 1000
  const CS_CIEXYZ: int := 1001
  const CS_PYCC: int := 1002
  const CS_GRAY: int := 1003
  const CS_LINEAR_RGB: int := 1004

  // java.awt.image.BufferedImage type codes
  const TYPE_CUSTOM: int := 0
  const TYPE_INT_RGB: int := 1
  const TYPE_INT_ARGB: int := 2
  const TYPE_INT_ARGB_PRE: int := 3
  const TYPE_INT_BGR: int := 4
  const TYPE_3BYTE_BGR: int := 5
  const TYPE_4BYTE_ABGR: int := 6
  const TYPE_4BYTE_ABGR_PRE: int := 7
  const TYPE_USHORT_565_RGB: int := 8
  const TYPE_USHORT_555_RGB: int := 9
  const TYPE_BYTE_GRAY: int := 10
  const TYPE_USHORT_GRAY: int := 11
  const TYPE_BYTE_BINARY: int := 12
  const TYPE_BYTE_INDEXED: int := 13

  /** `dataTypeName`: the constant's name, or the code in decimal. */
  function DataTypeName(t: int): (name: string)
    ensures |name| >= 1 && (KnownDataType(t) <==> 'A' <= name[0] <= 'Z')
  {
    if t == TYPE_BYTE then "TYPE_BYTE"
    else if t == TYPE_USHORT then "TYPE_USHORT"
    else if t == TYPE_SHORT then "TYPE_SHORT"
    else if t == TYPE_INT then "TYPE_INT"
    else if t == TYPE_FLOAT then "TYPE_FLOAT"
    else if t == TYPE_DOUBLE then "TYPE_DOUBLE"
    else if t == TYPE_UNDEFINED then "TYPE_UNDEFINED"
    else IntToStringIsNumeral(t); IntToString(t)
  }

  predicate KnownDataType(t: int)
  {
    t in {TYPE_BYTE, TYPE_USHORT, TYPE_SHORT, TYPE_INT, TYPE_FLOAT, TYPE_DOUBLE, TYPE_UNDEFINED}
  }

  /** `colorSpaceName`: the constant's name, or the code in decimal. */
  function ColorSpaceName(t: int): (name: string)
    ensures |name| >= 1 && (KnownColorSpace(t) <==> 'A' <= name[0] <= 'Z')
  {
    if t == CS_sRGB then "CS_sRGB"
    else if t == CS_LINEAR_RGB then "CS_LINEAR_RGB"
    else if t == CS_CIEXYZ then "CS_CIEXYZ"
    else if t == CS_PYCC then "CS_PYCC"
    else if t == CS_GRAY then "CS_GRAY"
    else IntToStringIsNumeral(t); IntToString(t)
  }

  predicate KnownColorSpace(t: int)
  {
    t in {CS_sRGB, CS_CIEXYZ, CS_PYCC, CS_GRAY, CS_LINEAR_RGB}
  }

  /** `imageTypeName`: the constant's name, or the code in decimal. */
  function ImageTypeName(t: int): (name: string)
    ensures |name| >= 1 && (KnownImageType(t) <==> 'A' <= name[0] <= 'Z')
  {
    if t == TYPE_3BYTE_BGR then "TYPE_3BYTE_BGR"
    else if t == TYPE_4BYTE_ABGR then "TYPE_4BYTE_ABGR"
    else if t == TYPE_4BYTE_ABGR_PRE then "TYPE_4BYTE_ABGR_PRE"
    else if t == TYPE_BYTE_BINARY then "TYPE_BYTE_BINARY"
    else if t == TYPE_BYTE_GRAY then "TYPE_BYTE_GRAY"
    else if t == TYPE_BYTE_INDEXED then "TYPE_BYTE_INDEXED"
    else if t == TYPE_CUSTOM then "TYPE_CUSTOM"
    else if t == TYPE_INT_ARGB then "TYPE_INT_ARGB"
    else if t == TYPE_INT_ARGB_PRE then "TYPE_INT_ARGB_PRE"
    else if t == TYPE_INT_BGR then "TYPE_INT_BGR"
    else if t == TYPE_INT_RGB then "TYPE_INT_RGB"
    else if t == TYPE_USHORT_555_RGB then "TYPE_USHORT_555_RGB"
    else if t == TYPE_USHORT_565_RGB then "TYPE_USHORT_565_RGB"
    else if t == TYPE_USHORT_GRAY then "TYPE_USHORT_GRAY"
    else IntToStringIsNumeral(t); IntToString(t)
  }

  predicate KnownImageType(t: int)
  {
    TYPE_CUSTOM <= t <= TYPE_BYTE_INDEXED
  }

  /** A name that starts with a letter cannot be mistaken for a decimal number. */
  lemma NamedIsNotNumeral(name: string, n: int)
    requires |name| > 0 && 'A' <= name[0] <= 'Z'
    ensures name != IntToString(n)
  {
    IntToStringIsNumeral(n);
  }

  /** Known data-buffer types have names starting with "TYPE_"; unknown ones read back as the code. */
  lemma DataTypeNameReadsBack(t: int)
    ensures KnownDataType(t) ==> DataTypeName(t)[..5] == "TYPE_"
    ensures !KnownDataType(t) ==> ParseInt(DataTypeName(t)) == t
  {
    IntToStringRoundTrip(t);
  }

  /** The known data-buffer types' names differ in length or in their sixth character. */
  lemma KnownDataTypeNamesDiffer(a: int, b: int)
    requires KnownDataType(a) && KnownDataType(b)
    requires |DataTypeName(a)| == |DataTypeName(b)| && DataTypeName(a)[5] == DataTypeName(b)[5]
    ensures a == b
  {
  }

  /**
   * Distinct data-buffer types get distinct names: known codes their
   * constant's name, and unknown codes their decimal form.
   */
  lemma DataTypeNamesAreDistinct(a: int, b: int)
    ensures DataTypeName(a) == DataTypeName(b) ==> a == b
  {
    if DataTypeName(a) == DataTypeName(b) {
      if KnownDataType(a) && KnownDataType(b) {
        KnownDataTypeNamesDiffer(a, b);
      } else if KnownDataType(a) {
        NamedIsNotNumeral(DataTypeName(a), b);
      } else if KnownDataType(b) {
        NamedIsNotNumeral(DataTypeName(b), a);
      } else {
        IntToStringIsInjective(a, b);
      }
    }
  }

  /** Known colour spaces have names starting with "CS_"; unknown ones read back as the code. */
  lemma ColorSpaceNameReadsBack(t: int)
    ensures KnownColorSpace(t) ==> ColorSpaceName(t)[..3] == "CS_"
    ensures !KnownColorSpace(t) ==> ParseInt(ColorSpaceName(t)) == t
  {
    IntToStringRoundTrip(t);
  }

  /** The known colour spaces' names differ in their fourth character. */
  lemma KnownColorSpaceNamesDiffer(a: int, b: int)
    requires KnownColorSpace(a) && KnownColorSpace(b) && ColorSpaceName(a)[3] == ColorSpaceName(b)[3]
    ensures a == b
  {
  }

  /** Distinct colour spaces get distinct names. */
  lemma ColorSpaceNamesAreDistinct(a: int, b: int)
    ensures ColorSpaceName(a) == ColorSpaceName(b) ==> a == b
  {
    if ColorSpaceName(a) == ColorSpaceName(b) {
      if KnownColorSpace(a) && KnownColorSpace(b) {
        KnownColorSpaceNamesDiffer(a, b);
      } else if KnownColorSpace(a) {
        NamedIsNotNumeral(ColorSpaceName(a), b);
      } else if KnownColorSpace(b) {
        NamedIsNotNumeral(ColorSpaceName(b), a);
      } else {
        IntToStringIsInjective(a, b);
      }
    }
  }

  /** Enough of a name to tell the image-type names apart: its length and three of its characters. */
  function NameKey(name: string): (int, char, char, char)
  {
    (|name|, if |name| > 5 then name[5] else ' ', if |name| > 9 then name[9] else ' ',
     if |name| > 13 then name[13] else ' ')
  }

  /** Known image types have names starting with "TYPE_"; unknown ones read back as the code. */
  lemma ImageTypeNameReadsBack(t: int)
    ensures KnownImageType(t) ==> ImageTypeName(t)[..5] == "TYPE_"
    ensures !KnownImageType(t) ==> ParseInt(ImageTypeName(t)) == t
  {
    IntToStringRoundTrip(t);
  }

  /** The known image types' names differ in length or in one of the characters `NameKey` picks. */
  lemma KnownImageTypeNamesDiffer(a: int, b: int)
    requires KnownImageType(a) && KnownImageType(b) && NameKey(ImageTypeName(a)) == NameKey(ImageTypeName(b))
    ensures a == b
  {
  }

  /** Distinct image types get distinct names. */
  lemma ImageTypeNamesAreDistinct(a: int, b: int)
    ensures ImageTypeName(a) == ImageTypeName(b) ==> a == b
  {
    if ImageTypeName(a) == ImageTypeName(b) {
      if KnownImageType(a) && KnownImageType(b) {
        KnownImageTypeNamesDiffer(a, b);
      } else if KnownImageType(a) && !KnownImageType(b) {
        NamedIsNotNumeral(ImageTypeName(a), b);
      } else if !KnownImageType(a) && KnownImageType(b) {
        NamedIsNotNumeral(ImageTypeName(b), a);
      } else {
        IntToStringIsInjective(a, b);
      }
    }
  }

  /**
   * `getBufferedImageType`: three components give 4BYTE_ABGR with alpha and
   * 3BYTE_BGR without; one component without alpha gives BYTE_GRAY; anything
   * else is an `UnsupportedOperationException`.
   */
  function GetBufferedImageType(numComponents: int, withAlpha: bool): (r: Result<int>)
    ensures r.Success? <==> numComponents == 3 || (numComponents == 1 && !withAlpha)
    ensures r.Success? ==>
      KnownImageType(r.value) &&
      ImageTypeName(r.value) == (if numComponents == 1 then "TYPE_BYTE_GRAY"
                                 else if withAlpha then "TYPE_4BYTE_ABGR" else "TYPE_3BYTE_BGR")
  {
    if numComponents == 3 then Success(if withAlpha then TYPE_4BYTE_ABGR else TYPE_3BYTE_BGR)
    else if numComponents == 1 && !withAlpha then Success(TYPE_BYTE_GRAY)
    else Failure("UnsupportedOperationException")
  }

  /** The indices `n - 1` down to `0`: channel `i` of a pixel sits at byte `n - 1 - i`. */
  function Reversal(n: nat): (r: seq<int>)
    ensures |r| == n && forall i :: 0 <= i < n ==> r[i] == n - 1 - i
  {
    seq(n, i => n - 1 - i)
  }

  /** The indices `0` up to `n - 1`. */
  function Range(n: nat): (r: seq<int>)
    ensures |r| == n && forall i :: 0 <= i < n ==> r[i] == i
  {
    seq(n, i => i)
  }

  /** The reversed offsets are a permutation of the channel indices. */
  lemma {:induction false} ReversalIsPermutation(n: nat)
    ensures multiset(Reversal(n)) == multiset(Range(n))
  {
    if n > 0 {
      ReversalIsPermutation(n - 1);
      assert Reversal(n) == [n - 1] + Reversal(n - 1);
      assert Range(n) == Range(n - 1) + [n - 1];
    }
  }

  /** Reversing twice gives back each channel: the offsets are their own inverse. */
  lemma ReversalIsInvolution(n: nat, i: int)
    requires 0 <= i < n
    ensures 0 <= Reversal(n)[i] < n && Reversal(n)[Reversal(n)[i]] == i
  {
  }

  /**
   * The channel-offset loop of `createByteImage`: `channelOffsets[i] =
   * pixelStride - i - 1` in a new array; a negative stride is a
   * `NegativeArraySizeException`.
   */
  method ChannelOffsets(pixelStride: int) returns (r: Result<array<int>>)
    ensures r.Success? <==> pixelStride >= 0
    ensures r.Success? ==> fresh(r.value) && r.value[..] == Reversal(pixelStride)
  {
    if pixelStride < 0 {
      return Failure("NegativeArraySizeException");
    }
    var offsets := new int[pixelStride];
    for i := 0 to pixelStride
      invariant forall k :: 0 <= k < i ==> offsets[k] == pixelStride - k - 1
    {
      offsets[i] := pixelStride - i - 1;
    }
    return Success(offsets);
  }

  /** `Character.toUpperCase` on ASCII letters. */
  function ToUpperAscii(c: char): char
  {
    if 'a' <= c <= 'z' then (c as int - 32) as char else c
  }

  function ToUpper(s: string): (r: string)
    ensures |r| == |s| && forall i :: 0 <= i < |s| ==> r[i] == ToUpperAscii(s[i])
  {
    seq(|s|, i requires 0 <= i < |s| => ToUpperAscii(s[i]))
  }

  /** `fileName.length() >= 5 && fileName.toUpperCase().endsWith(".GIF")`: the file goes to the GIF loader. */
  predicate IsGifName(fileName: string)
    ensures IsGifName(fileName) ==> |fileName| >= 5 && fileName[|fileName| - 4] == '.'
  {
    |fileName| >= 5 && ToUpper(fileName)[|fileName| - 4..] == ".GIF"
  }

  /**
   * A name goes to the GIF loader exactly when it has at least five
   * characters and ends in ".gif" in any mix of cases.
   */
  lemma GifNamesEndInGif(fileName: string)
    ensures IsGifName(fileName) <==>
      |fileName| >= 5 &&
      var n := |fileName|;
      fileName[n - 4] == '.' && fileName[n - 3] in {'g', 'G'} &&
      fileName[n - 2] in {'i', 'I'} && fileName[n - 1] in {'f', 'F'}
  {
    if |fileName| >= 5 {
      var n := |fileName|;
      var tail := ToUpper(fileName)[n - 4..];
      assert tail == [ToUpperAscii(fileName[n - 4]), ToUpperAscii(fileName[n - 3]),
                      ToUpperAscii(fileName[n - 2]), ToUpperAscii(fileName[n - 1])];
    }
  }

  /** Where `readImage` sends a file. */
  datatype Route = GifLoader | ImageIO

  function ReadImageRoute(fileName: string): (r: Route)
    ensures r.GifLoader? <==>
      |fileName| >= 5 &&
      var n := |fileName|;
      fileName[n - 4] == '.' && fileName[n - 3] in {'g', 'G'} &&
      fileName[n - 2] in {'i', 'I'} && fileName[n - 1] in {'f', 'F'}
  {
    GifNamesEndInGif(fileName);
    if IsGifName(fileName) then GifLoader else ImageIO
  }

  /**
   * What `readImage` returns from a non-GIF file, given what `ImageIO.read`
   * decoded: nothing (null) for an unreadable file, else one frame of duration 1.
   */
  function ReadSingleImage(decoded: Option<AnimationFrames.Image>): (r: Option<seq<AnimationFrames.AnimationFrame>>)
    ensures r.Some? <==> decoded.Some?
    ensures r.Some? ==>
      |r.value| == 1 && r.value[0].image == decoded.value &&
      r.value[0].duration == 1 && r.value[0].Valid()
  {
    match decoded
    case None => None
    case Some(image) => Some([AnimationFrames.AnimationFrame(image, 1)])
  }

  /** `toBufferedImage(width, data, transparent)`'s height, `data.length / width`; a zero width divides by zero. */
  function PackedHeight(width: int, length: nat): (r: Result<int>)
    ensures r.Failure? <==> width == 0
  {
    if width == 0 then Failure("ArithmeticException") else Success(Quot(length, width))
  }

  /**
   * For a positive width the height counts the whole rows in the data, so
   * copying `width * height` values never reads past the data and leaves
   * fewer than one row out.
   */
  lemma PackedHeightCountsWholeRows(width: int, length: nat)
    requires width > 0
    ensures var h := PackedHeight(width, length).value;
      h >= 0 && h * width <= length < h * width + width
  {
    var h := Quot(length, width);
    assert h * width <= length < (h + 1) * width;
    if h < 0 {
      MulIsMonotone(h + 1, 0, width);
    }
  }
}
