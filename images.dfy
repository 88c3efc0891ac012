/**
 * The in-memory image that stands in for the PPM `Image` of ppmFile.h.
 *
 * An image is a three-dimensional array indexed `pic[x, y, c]`, in the
 * argument order of `ImageGetPixel(pic, x, y, c)` and
 * `ImageSetPixel(pic, x, y, c, v)`: `Length0` is the width, `Length1` the
 * height and `Length2` the number of channels (red, green, blue).
 */
module Images {

  /** One 8-bit channel value. */
  type Byte = v: int | 0 <= v < 256

  /** Channels per pixel: 0 is red, 1 green, 2 blue. */
  const Channels := 3

  predicate IsImage(pic: array3<Byte>)
  {
    pic.Length2 == Channels
  }

  /**
   * The `pix` record: three integer channel fields, used both as the
   * running sums of a window and as the averaged pixel.
   */
  datatype Pix = Pix(r: int, g: int, b: int)
  {
    /** The field that channel index `c` selects. */
    function Channel(c: int): int
      requires 0 <= c < Channels
    {
      if c == 0 then r else if c == 1 then g else b
    }
  }
}
