# Box blur (OMP/hw4.c) in Dafny

This project models the box-blur program `OMP/hw4.c`. The program reads a
PPM image and a radius `r`. For every output pixel it averages the source
pixels of a clamped window around that pixel, channel by channel, and writes
the result into a new image of the same size. The model covers both parts of
the program:

- **`blurFilter`**, modelled in module `Averager`. The window clamp is the
  function `ClampWindow`. The accumulation loops and the integer division are
  the method `BlurFilter`. That method is proved against the ghost
  function `Average`, which is built from the window sums `RowSum` and
  `WindowSum` and from `CDiv`, C's truncating division.
- **The per-pixel loop of `main`**, modelled in module `Driver`. The method
  `Render` allocates the destination and runs the two nested loops. `BlurRow`
  is one pass of the inner loop, and `SetPixel` holds the three
  `ImageSetPixel` calls. `SetPixel` appends the coordinate it stores to a
  ghost log of writes, and `BlurRow` and `Render` build that log only from
  `SetPixel`'s results, so every store into the destination appears in it.
  `Render` proves that the log lists every pixel exactly once, in the order
  of the iteration space of `collapse(2)`. The lemmas about `RowMajor` and
  `Flat` show that this iteration space maps one to one onto the pixels.

An image is an `array3<Byte>` indexed `pic[x, y, c]`, in the argument order
of `ImageGetPixel(pic, x, y, c)`. `Length0` is the width, `Length1` the
height and `Length2` the three channels. `Byte` is the subset type `0..255`.
Because of that type, the proof that each average fits in a byte is needed
before `Render` may store it. The `pix` struct is the datatype `Pix`.

The clamp is modelled exactly as the code writes it (lines 72-75):

- The lower bound is `max(x - r, 0)`.
- The exclusive upper bound is `x + r` while `x + r <= w - 1`, and `w`
  otherwise.
- So an interior window is `[x - r, x + r)`. It has `r` columns before the
  centre and only `r - 1` after it (`InteriorWindowIsLopsided`).
- With `r = 0` the window is empty and the pixel count is 0. The divisions at
  lines 92-94 then divide by zero.
- With `r < 0` both extents are negative and nothing is summed. The count is
  `4 r²`, which is positive, so every channel comes out 0
  (`NegativeRadiusIsBlack`). With C's 32-bit `int` this holds for
  `-23170 <= r <= -1`; below that `4 r²` overflows (see "## Left out").

For these reasons `blurFilter` requires only `r != 0`. `Render` requires
`r != 0` unless the image is empty, because an empty image never reaches
`blurFilter`.

### How the code differs from a centred box blur

- Radius 0 does not copy the image. The window is empty, `num = 0`, and
  the divisions divide by zero (`ClampWindow`, case `r == 0`).
- The window is not centred. For the image 10 20 30 / 40 50 60 / 70 80 90
  with radius 1, a centred 3 × 3 box would give 50 at the centre; the code
  gives 30 (`SampleCentre`). At the top-left corner a centred box would give
  30; the code gives 10 (`SampleTopLeft`). At the bottom-right corner the
  code gives 70 (`SampleBottomRight`).
- A negative radius is not rejected. For `-23170 <= r <= -1` the output is
  an all-black image (`NegativeRadiusIsBlack`).

## Model

| member | source | states |
|---|---|---|
| Averager.ClampWindow | OMP/hw4.c:70-75 | For `0 <= x < w`, `0 <= y < h`: when `r >= 1`, `0 <= xMin <= x < xMax <= w` and `0 <= yMin <= y < yMax <= h`, so every pixel read lies in the image and the count is at least 1. When `r == 0`, the window is empty at (x, y) and the count `num` is 0. When `r < 0`, both extents are inverted and the count is `4 r²`. |
| Averager.CDiv | OMP/hw4.c:92-94 | C's `/` truncates toward zero. `q * b` lies between 0 and `a`, and `a - q * b` is smaller than `abs(b)` in magnitude. |
| Averager.BlurFilter | OMP/hw4.c:67-98 | The nested row-by-row accumulation loops, with per-row partial-sum invariants, return exactly `Average` for every `r != 0` and every in-image (x, y). Each channel is the sum over the window, truncated-divided by `(yMax-yMin)*(xMax-xMin)`. All reads `pic[j, i, _]` are in bounds. |
| Averager.RowSumBounds | OMP/hw4.c:80-84 | If every pixel of a row segment lies in `[lo, hi]`, its sum lies in `[lo * n, hi * n]`, where n is the segment length. |
| Averager.WindowSumBounds | OMP/hw4.c:79-87 | If every pixel of a window lies in `[lo, hi]`, the accumulated sum lies in `[lo * num, hi * num]`. |
| Averager.DivWithin | OMP/hw4.c:92-94 | The truncated quotient of a non-negative sum in `[lo * n, hi * n]` lies in `[lo, hi]`. |
| Averager.AverageWithin | OMP/hw4.c:79-94 | For `r >= 1`, each output channel lies between any lower and upper bound of that channel over the window. That is, it lies between the window's minimum and maximum. |
| Averager.UniformWindow | OMP/hw4.c:79-94 | For `r >= 1`, a window whose pixels all hold `v` in a channel returns exactly `v` in that channel. |
| Averager.NegativeRadiusIsBlack | OMP/hw4.c:72-94 | For `r < 0` nothing is summed, the divisor `4 r²` is positive, and every channel is 0 (in C, for `-23170 <= r <= -1`, where `4 r²` fits in an `int`). |
| Averager.AverageIsByte | OMP/hw4.c:89-94 | For every `r != 0`, all three channels of the result lie in `0..255`. |
| Averager.UpperEdgePolicy | OMP/hw4.c:74-75 | If `x + r <= w - 1`, then `xMax = x + r`: column `x + r - 1` is summed and column `x + r` is not. Otherwise `xMax = w` and the last column is summed. Rows follow the same rule with `h`. |
| Averager.InteriorWindowIsLopsided | OMP/hw4.c:72-75 | Away from the edges the window has `r` columns and rows before the centre and `r - 1` after it. It holds `4 r²` pixels. |
| Averager.LargeRadiusIsGlobalAverage | OMP/hw4.c:72-75 | When `r >= w` and `r >= h`, every window is the whole image, so every output pixel equals the same global average. |
| Averager.SampleCentre | OMP/hw4.c:72-94 | On the 3 × 3 image 10..90 with radius 1, the centre averages 10, 20, 40 and 50 to 30. |
| Averager.SampleTopLeft | OMP/hw4.c:72-94 | On the same image, the top-left corner averages only itself, giving 10. |
| Averager.SampleBottomRight | OMP/hw4.c:72-94 | On the same image, the bottom-right corner averages 50, 60, 80 and 90 to 70. |
| Driver.RowMajorOfFlat | OMP/hw4.c:44-46 | Iteration `y * w + x` of the collapsed loop handles coordinate `(x, y)`, with `j = k % WIDTH` and `i = k / WIDTH`. |
| Driver.RowMajorInside | OMP/hw4.c:44-46 | Every iteration `k < w * h` of the collapsed loop handles a coordinate inside the image. |
| Driver.RowMajorInjective | OMP/hw4.c:44-46 | Two different iterations of the collapsed loop handle different coordinates, so their writes are disjoint. |
| Driver.FlatInside | OMP/hw4.c:44-46 | Every coordinate of the image has its iteration below `w * h`. |
| Driver.RowMajorIsBijection | OMP/hw4.c:44-46 | The iterations `0 .. w*h-1` and the pixels of the `w × h` image correspond one to one. |
| Driver.SetPixel | OMP/hw4.c:50-52 | The three `ImageSetPixel` calls store the pixel's three channels at (x, y). Every other cell keeps its value. The write log gains exactly `(x, y)`. |
| Driver.BlurRow | OMP/hw4.c:46-54 | One pass of the inner loop sets row y, channel by channel, to `Average` at each column, and leaves every other row unchanged. All its stores go through `SetPixel`, and the write log grows by exactly `(0, y) .. (w-1, y)`, in order. |
| Driver.Render | OMP/hw4.c:30-56 | The destination is fresh and has the source's width and height, and the source is unchanged. Every channel of every pixel equals `blurFilter`'s result at that coordinate. The write log, built only from `SetPixel`'s results, has `w * h` entries, all inside the image and pairwise distinct, and entry `y * w + x` is `(x, y)`: each pixel is written exactly once, in row-major order. |

## Left out

- `ImageRead`, `ImageWrite`, `ImageWidth`, `ImageHeight` and `ImageCreate` (lines 28-34, 58) are PPM file input and output from `ppmFile.h`. `ppmFile.h` is not part of this model. The source image is an in-memory `array3<Byte>`, and `ImageCreate` is modelled as a zero-initialised allocation. Channel values are assumed to be in `0..255`, as `ImageGetPixel` of an 8-bit PPM yields.
- Argument handling with `atoi(argv[...])` (lines 20-22) and the `printf` messages (lines 36, 62) are left out. The radius and the image are parameters.
- The OpenMP `parallel` region and `for collapse(2)` (lines 41, 44) are left out. The driver runs sequentially, and threads, scheduling and memory visibility are not modelled. What the parallel version relies on is proved instead: each collapsed iteration writes its own pixel (`RowMajorIsBijection`, and the write log of `Render`), and the source is only read.
- 32-bit `int` overflow is not modelled; the model uses unbounded integers. Each sum is at most `255 * w * h` (`WindowSumBounds` with `hi = 255`), so the accumulators overflow only for a window of more than about 8.4 million pixels. The radius is assumed to satisfy `|r| <= 23170` (and `x + r`, `y + r` to fit in an `int`): then `x ± r` and `num`, which is at most `4 r²`, fit. For `r <= -23171` the C `num = 4 r²` overflows (at `r = -32768` it wraps to 0 and divides by zero); for a large positive `r`, `x + r` overflows and the clamp no longer picks `w`.
- Averager.NegativeRadiusIsBlack: proved with unbounded integers; it describes the C code only for `-23170 <= r <= -1`, where `4 r²` does not overflow.
- Averager.LargeRadiusIsGlobalAverage: proved with unbounded integers; it describes the C code only while `x + r` and `y + r` fit in an `int`, that is `r <= 2147483647 - max(w, h)`.
- Averager.ClampWindow: the `r < 0` count `4 r²` is the unbounded value; in C it is that value only for `r >= -23170`.
- Driver.Render: the write log records one entry per pixel, not one per `ImageSetPixel` call. The three channel writes of a pixel are stated by `SetPixel`.
