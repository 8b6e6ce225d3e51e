/** The placement arithmetic of `overlayEmoji` (src/faceswap.js:166-182):
    the emoji's pixel size and the `-page` offset it is drawn at. */
module Geometry {

  import opened Detection

  /** The margin added to both sides of every emoji. */
  const Pad: int := 10

  /** `parseInt(x, 10)` on an ordinary number: the integer part, truncated
      toward zero. */
  function Trunc(x: real): (r: int)
    ensures x >= 0.0 ==> r >= 0 && r as real <= x < r as real + 1.0
    ensures x < 0.0 ==> r <= 0 && r as real - 1.0 < x <= r as real
  {
    if x >= 0.0 then x.Floor else -((-x).Floor)
  }

  /** The pixel size of an image as the size probe reports it. */
  datatype Size = Size(width: nat, height: nat)

  /** The size requested from the emoji renderer for one face. */
  datatype Extent = Extent(width: int, height: int)

  /** The emoji's size for one face: the box's pixel extent, truncated, plus
      the margin. A side falls below the margin only once the box's extent
      on that axis reaches minus one pixel. */
  function EmojiSize(box: BoundingBox, image: Size): (r: Extent)
    ensures r.width < Pad <==> box.width * image.width as real <= -1.0
    ensures r.height < Pad <==> box.height * image.height as real <= -1.0
  {
    Extent(Trunc(box.width * image.width as real) + Pad, Trunc(box.height * image.height as real) + Pad)
  }

  /** An absolute pixel offset, kept as numbers rather than the `+x+y` text. */
  datatype Point = Point(x: real, y: real)

  /** The `-page` offset of a face's emoji: the box's top-left corner in
      pixels, inside the image whenever the box's corner is. */
  function Position(box: BoundingBox, image: Size): (r: Point)
    ensures 0.0 <= box.left <= 1.0 ==> 0.0 <= r.x <= image.width as real
    ensures 0.0 <= box.top <= 1.0 ==> 0.0 <= r.y <= image.height as real
  {
    Point(box.left * image.width as real, box.top * image.height as real)
  }

  /** One `-page <offset> <file>` argument of the ImageMagick command that the
      running composite accumulates. */
  datatype Layer = Layer(at: Point, path: string)

  /** For a box with non-negative fractions, each side of the emoji is the
      truncated pixel extent of the box plus the margin, hence at least the
      margin itself. */
  lemma EmojiSizeBounds(box: BoundingBox, image: Size)
    requires box.width >= 0.0 && box.height >= 0.0
    ensures var e := EmojiSize(box, image);
      e.width >= Pad && e.height >= Pad &&
      (e.width - Pad) as real <= box.width * image.width as real < (e.width - Pad + 1) as real &&
      (e.height - Pad) as real <= box.height * image.height as real < (e.height - Pad + 1) as real
  {
    assert box.width * image.width as real >= 0.0;
    assert box.height * image.height as real >= 0.0;
  }

  /** A box spanning half of a 200-pixel-wide image gives a 110-pixel emoji,
      and 0.999 of 10 pixels truncates to 9, not 10. */
  lemma EmojiSizeExamples()
    ensures EmojiSize(BoundingBox(0.0, 0.0, 0.5, 0.25), Size(200, 100)) == Extent(110, 35)
    ensures EmojiSize(BoundingBox(0.0, 0.0, 0.999, 0.999), Size(10, 10)) == Extent(19, 19)
  {
  }
}
