/**
 * `AnimationFrame`: an image with a display duration.  A `BufferedImage` is
 * compared by identity, so the model sees an image through an identity and its
 * size; its identity hash code is foreign and is passed in where needed.
 */
module AnimationFrames {
  import opened Java
  import opened Wrappers
  import SizeInts

  /** A raster image: which object it is, and its width and height. */
  datatype Image = Image(id: nat, width: int, height: int)

  datatype AnimationFrame = AnimationFrame(image: Image, duration: int) {
    /** What the constructor guarantees. */
    predicate Valid() { duration >= 1 }
  }

  /**
   * The constructor: a missing (null) image is a `NullPointerException`, checked
   * first; a duration below one is an `IllegalArgumentException`.
   */
  function NewFrame(image: Option<Image>, duration: int): (r: Result<AnimationFrame>)
    ensures r.Success? <==> image.Some? && duration >= 1
    ensures r.Success? ==> r.value.Valid() && r.value.image == image.value && r.value.duration == duration
    ensures image.None? ==> r == Failure("NullPointerException")
    ensures image.Some? && duration < 1 ==> r == Failure("IllegalArgumentException")
  {
    if image.None? then Failure("NullPointerException")
    else if duration < 1 then Failure("IllegalArgumentException")
    else Success(AnimationFrame(image.value, duration))
  }

  /** `getSize`: the size of the frame's image. */
  function GetSize(f: AnimationFrame): (s: SizeInts.SizeInt)
    ensures s.width == f.image.width && s.height == f.image.height
  {
    SizeInts.SizeInt(f.image.width, f.image.height)
  }

  /** What `equals` can be handed. */
  datatype Object = FrameObject(frame: AnimationFrame) | OtherObject

  /** `equals`: the same duration and the same image; never equal to another type. */
  function Equals(a: AnimationFrame, o: Object): (eq: bool)
    ensures eq <==> o == FrameObject(a)
  {
    match o
    case FrameObject(b) => a.duration == b.duration && a.image == b.image
    case OtherObject => false
  }

  /** `equals` holds exactly for the same frame, so it is reflexive and symmetric. */
  lemma EqualsIsValueEquality(a: AnimationFrame, b: AnimationFrame)
    ensures Equals(a, FrameObject(b)) <==> a == b
    ensures Equals(a, FrameObject(a))
    ensures Equals(a, FrameObject(b)) == Equals(b, FrameObject(a))
    ensures !Equals(a, OtherObject)
  {
  }

  /** `hashCode`: `31 * image.hashCode() + duration` on 32 bits. */
  function HashCode(f: AnimationFrame, imageHash: Image -> int): (h: int)
    ensures IsInt(h)
  {
    ToInt(31 * imageHash(f.image) + f.duration)
  }

  /** Equal frames hash alike, whatever the images' hash codes are. */
  lemma EqualFramesHashAlike(a: AnimationFrame, b: AnimationFrame, imageHash: Image -> int)
    requires Equals(a, FrameObject(b))
    ensures HashCode(a, imageHash) == HashCode(b, imageHash)
  {
  }

  /** Two frames of one image with different durations hash apart. */
  lemma HashSeparatesDurations(a: AnimationFrame, b: AnimationFrame, imageHash: Image -> int)
    requires a.image == b.image && a.duration != b.duration
    requires IsInt(a.duration) && IsInt(b.duration) && a.Valid() && b.Valid()
    ensures HashCode(a, imageHash) != HashCode(b, imageHash)
  {
  }
}
