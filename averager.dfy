/**
 * The neighbourhood averager: `blurFilter` of OMP/hw4.c.
 *
 * For a coordinate (x, y) and radius r it derives a clamped half-open window
 * [xMin, xMax) × [yMin, yMax), sums each channel over the window row by row
 * and divides each sum by the window's pixel count with C's truncating
 * division. The clamp is kept exactly as the C code writes it: the upper
 * bound becomes `x + r` (exclusive) unless `x + r > w - 1`, in which case it
 * becomes `w`. An interior window therefore has r columns left of x but only
 * r - 1 right of it, and a zero radius gives an empty window and a division
 * by zero.
 */
module Averager {
  import opened Images
  import opened Arith

  /** A half-open rectangle [xMin, xMax) × [yMin, yMax) of source pixels. */
  datatype Window = Window(xMin: int, xMax: int, yMin: int, yMax: int)
  {
    /** The divisor `num` of the C code. */
    function Count(): int
    {
      (yMax - yMin) * (xMax - xMin)
    }

    predicate Contains(x: int, y: int)
    {
      xMin <= x < xMax && yMin <= y < yMax
    }

    /** Every pixel the window spans lies in a w × h image. */
    predicate InsideOrEmpty(w: int, h: int)
    {
      xMin < xMax && yMin < yMax ==> 0 <= xMin && xMax <= w && 0 <= yMin && yMax <= h
    }
  }

  /**
   * The window clamp of blurFilter. A positive radius gives a non-empty
   * window inside the image that holds (x, y); a zero radius gives an
   * empty window, so the pixel count is 0; a negative radius gives a window
   * whose two extents are both negative, so nothing is summed yet the count
   * is positive.
   */
  function ClampWindow(w: int, h: int, r: int, x: int, y: int): (win: Window)
    requires 0 <= x < w && 0 <= y < h
    ensures win.InsideOrEmpty(w, h)
    ensures r >= 1 ==>
      0 <= win.xMin <= x < win.xMax <= w && 0 <= win.yMin <= y < win.yMax <= h && win.Count() >= 1
    ensures r == 0 ==> win.xMin == win.xMax == x && win.yMin == win.yMax == y && win.Count() == 0
    ensures r < 0 ==> win.xMax < win.xMin && win.yMax < win.yMin && win.Count() == 4 * r * r
  {
    var xMin := if x - r < 0 then 0 else x - r;
    var yMin := if y - r < 0 then 0 else y - r;
    var xMax := if x + r > w - 1 then w else x + r;
    var yMax := if y + r > h - 1 then h else y + r;
    ExtentsProduct(xMax - xMin, yMax - yMin, r);
    Window(xMin, xMax, yMin, yMax)
  }

  /** The pixel count for the three shapes of window the clamp can produce. */
  lemma ExtentsProduct(dx: int, dy: int, r: int)
    ensures dx >= 1 && dy >= 1 ==> dy * dx >= 1
    ensures dx == 0 ==> dy * dx == 0
    ensures dx == 2 * r && dy == 2 * r ==> dy * dx == 4 * r * r
  {
    if dx >= 1 && dy >= 1 {
      MulMono(1, dy, dx);
    }
  }

  /** C's `/` on `int`: the quotient truncated toward zero. */
  function CDiv(a: int, b: int): (q: int)
    requires b != 0
    ensures 0 <= a ==> 0 <= q * b <= a && a - q * b < (if b < 0 then -b else b)
    ensures a < 0 ==> a <= q * b <= 0 && q * b - a < (if b < 0 then -b else b)
  {
    var m := if a < 0 then -a else a;
    var n := if b < 0 then -b else b;
    var t := m / n;
    NaturalDivision(m, n);
    var q := if (a < 0) == (b < 0) then t else -t;
    SignedProduct(t, n, q, b);
    q
  }

  /** Sum of channel c over the pixels (x, y) with x0 <= x < x1, added left to right. */
  ghost function RowSum(pic: array3<Byte>, c: int, y: int, x0: int, x1: int): int
    requires IsImage(pic) && 0 <= c < Channels
    requires x0 < x1 ==> 0 <= x0 && x1 <= pic.Length0 && 0 <= y < pic.Length1
    reads pic
    decreases x1 - x0
  {
    if x1 <= x0 then 0 else RowSum(pic, c, y, x0, x1 - 1) + pic[x1 - 1, y, c]
  }

  /** Sum of channel c over a window, added row by row from the top. */
  ghost function WindowSum(pic: array3<Byte>, c: int, win: Window): int
    requires IsImage(pic) && 0 <= c < Channels
    requires win.InsideOrEmpty(pic.Length0, pic.Length1)
    reads pic
    decreases win.yMax - win.yMin
  {
    if win.yMax <= win.yMin then 0
    else WindowSum(pic, c, win.(yMax := win.yMax - 1)) + RowSum(pic, c, win.yMax - 1, win.xMin, win.xMax)
  }

  /** The three channel sums of a window, as the accumulator holds them. */
  ghost function WindowSums(pic: array3<Byte>, win: Window): Pix
    requires IsImage(pic) && win.InsideOrEmpty(pic.Length0, pic.Length1)
    reads pic
  {
    Pix(WindowSum(pic, 0, win), WindowSum(pic, 1, win), WindowSum(pic, 2, win))
  }

  /** The pixel blurFilter returns: each channel sum divided by the window's count. */
  ghost function Average(pic: array3<Byte>, r: int, x: int, y: int): Pix
    requires IsImage(pic) && r != 0 && 0 <= x < pic.Length0 && 0 <= y < pic.Length1
    reads pic
  {
    var win := ClampWindow(pic.Length0, pic.Length1, r, x, y);
    var sums := WindowSums(pic, win);
    var num := win.Count();
    Pix(CDiv(sums.r, num), CDiv(sums.g, num), CDiv(sums.b, num))
  }

  /**
   * blurFilter: the accumulation loops visit the window row by row and
   * every read `pic[j, i, _]` is inside the image; the result is the
   * truncated average of each channel over the window. Only a zero radius
   * is refused, because only then is the pixel count zero.
   */
  method BlurFilter(pic: array3<Byte>, w: int, h: int, r: int, x: int, y: int) returns (avg: Pix)
    requires IsImage(pic) && w == pic.Length0 && h == pic.Length1
    requires 0 <= x < w && 0 <= y < h
    requires r != 0
    ensures avg == Average(pic, r, x, y)
  {
    var win := ClampWindow(w, h, r, x, y);
    avg := Pix(0, 0, 0);
    var i := win.yMin;
    while i < win.yMax
      invariant win.yMin <= i
      invariant win.yMin <= win.yMax ==> i <= win.yMax
      invariant win.yMax < win.yMin ==> i == win.yMin
      invariant avg == WindowSums(pic, win.(yMax := i))
    {
      var j := win.xMin;
      while j < win.xMax
        invariant win.xMin <= j <= win.xMax
        invariant avg.r == WindowSum(pic, 0, win.(yMax := i)) + RowSum(pic, 0, i, win.xMin, j)
        invariant avg.g == WindowSum(pic, 1, win.(yMax := i)) + RowSum(pic, 1, i, win.xMin, j)
        invariant avg.b == WindowSum(pic, 2, win.(yMax := i)) + RowSum(pic, 2, i, win.xMin, j)
      {
        avg := avg.(r := avg.r + pic[j, i, 0], g := avg.g + pic[j, i, 1], b := avg.b + pic[j, i, 2]);
        j := j + 1;
      }
      i := i + 1;
    }
    var num := win.Count();
    avg := Pix(CDiv(avg.r, num), CDiv(avg.g, num), CDiv(avg.b, num));
  }

  // Properties of the averaged pixel

  /** Bounding every pixel of a row segment bounds its sum. */
  lemma {:induction false} RowSumBounds(pic: array3<Byte>, c: int, y: int, x0: int, x1: int, lo: int, hi: int)
    requires IsImage(pic) && 0 <= c < Channels
    requires x0 <= x1 && (x0 < x1 ==> 0 <= x0 && x1 <= pic.Length0 && 0 <= y < pic.Length1)
    requires forall x :: x0 <= x < x1 ==> lo <= pic[x, y, c] <= hi
    ensures lo * (x1 - x0) <= RowSum(pic, c, y, x0, x1) <= hi * (x1 - x0)
    decreases x1 - x0
  {
    if x0 < x1 {
      RowSumBounds(pic, c, y, x0, x1 - 1, lo, hi);
      BoundsAdd(lo, hi, RowSum(pic, c, y, x0, x1 - 1), x1 - 1 - x0, pic[x1 - 1, y, c], 1);
    }
  }

  /** Bounding every pixel of a window bounds its sum by the bound times the count. */
  lemma {:induction false} WindowSumBounds(pic: array3<Byte>, c: int, win: Window, lo: int, hi: int)
    requires IsImage(pic) && 0 <= c < Channels
    requires win.xMin <= win.xMax && win.yMin <= win.yMax
    requires win.InsideOrEmpty(pic.Length0, pic.Length1)
    requires forall x, y :: win.Contains(x, y) ==> lo <= pic[x, y, c] <= hi
    ensures lo * win.Count() <= WindowSum(pic, c, win) <= hi * win.Count()
    decreases win.yMax - win.yMin
  {
    if win.yMin < win.yMax {
      var above := win.(yMax := win.yMax - 1);
      WindowSumBounds(pic, c, above, lo, hi);
      RowSumBounds(pic, c, win.yMax - 1, win.xMin, win.xMax, lo, hi);
      CountOfTopRows(win);
      BoundsAdd(lo, hi, WindowSum(pic, c, above), above.Count(),
                RowSum(pic, c, win.yMax - 1, win.xMin, win.xMax), win.xMax - win.xMin);
    }
  }

  /** A non-empty window counts the pixels of all its rows but the last, plus one row. */
  lemma CountOfTopRows(win: Window)
    requires win.yMin < win.yMax
    ensures win.Count() == win.(yMax := win.yMax - 1).Count() + (win.xMax - win.xMin)
  {
    MulAdd(win.xMax - win.xMin, win.yMax - 1 - win.yMin, 1);
  }

  /** Bounds on two parts add up to bounds on the whole. */
  lemma BoundsAdd(lo: int, hi: int, a: int, m: int, b: int, n: int)
    requires lo * m <= a <= hi * m && lo * n <= b <= hi * n
    ensures lo * (m + n) <= a + b <= hi * (m + n)
  {
    MulAdd(lo, m, n);
    MulAdd(hi, m, n);
  }

  /** A truncated quotient of a sum lying between lo * n and hi * n lies between lo and hi. */
  lemma DivWithin(s: int, n: int, lo: int, hi: int)
    requires 0 <= s && 1 <= n && lo * n <= s <= hi * n
    ensures lo <= CDiv(s, n) <= hi
  {
    var q := CDiv(s, n);
    assert q * n <= hi * n;
    MulCancel(q, hi, n);
    assert lo * n < (q + 1) * n;
    MulCancel(lo, q, n);
  }

  /**
   * With a positive radius, every channel of the result lies between any
   * lower and upper bound of that channel over the window: between the
   * window's minimum and maximum.
   */
  lemma AverageWithin(pic: array3<Byte>, r: int, x: int, y: int, c: int, lo: int, hi: int)
    requires IsImage(pic) && 0 <= x < pic.Length0 && 0 <= y < pic.Length1 && 0 <= c < Channels
    requires r >= 1
    requires forall i, j :: ClampWindow(pic.Length0, pic.Length1, r, x, y).Contains(i, j) ==> lo <= pic[i, j, c] <= hi
    ensures lo <= Average(pic, r, x, y).Channel(c) <= hi
  {
    var win := ClampWindow(pic.Length0, pic.Length1, r, x, y);
    WindowSumBounds(pic, c, win, lo, hi);
    WindowSumBounds(pic, c, win, 0, 255);
    DivWithin(WindowSum(pic, c, win), win.Count(), lo, hi);
  }

  /** A window whose pixels all hold v in channel c averages to exactly v there. */
  lemma UniformWindow(pic: array3<Byte>, r: int, x: int, y: int, c: int, v: int)
    requires IsImage(pic) && 0 <= x < pic.Length0 && 0 <= y < pic.Length1 && 0 <= c < Channels
    requires r >= 1
    requires forall i, j :: ClampWindow(pic.Length0, pic.Length1, r, x, y).Contains(i, j) ==> pic[i, j, c] == v
    ensures Average(pic, r, x, y).Channel(c) == v
  {
    AverageWithin(pic, r, x, y, c, v, v);
  }

  /**
   * A negative radius makes both extents negative: nothing is summed, the
   * count 4 * r * r is positive and every channel is 0. With C's 32-bit
   * int this holds while 4 * r * r still fits, that is for r >= -23170.
   */
  lemma NegativeRadiusIsBlack(pic: array3<Byte>, r: int, x: int, y: int)
    requires IsImage(pic) && 0 <= x < pic.Length0 && 0 <= y < pic.Length1
    requires r < 0
    ensures Average(pic, r, x, y) == Pix(0, 0, 0)
  {
  }

  /** For every radius blurFilter accepts, each channel fits in 0..255. */
  lemma AverageIsByte(pic: array3<Byte>, r: int, x: int, y: int)
    requires IsImage(pic) && 0 <= x < pic.Length0 && 0 <= y < pic.Length1
    requires r != 0
    ensures var p := Average(pic, r, x, y); 0 <= p.r < 256 && 0 <= p.g < 256 && 0 <= p.b < 256
  {
    if r < 0 {
      NegativeRadiusIsBlack(pic, r, x, y);
    } else {
      AverageWithin(pic, r, x, y, 0, 0, 255);
      AverageWithin(pic, r, x, y, 1, 0, 255);
      AverageWithin(pic, r, x, y, 2, 0, 255);
    }
  }

  // The window as written

  /**
   * The upper edge: an exclusive bound of x + r while x + r is still a
   * column of the image, the full width once it is not; so column x + r
   * itself is never summed. Rows follow the same rule.
   */
  lemma UpperEdgePolicy(w: int, h: int, r: int, x: int, y: int)
    requires 0 <= x < w && 0 <= y < h && r >= 1
    ensures var win := ClampWindow(w, h, r, x, y);
      (x + r <= w - 1 ==> win.xMax == x + r && !win.Contains(x + r, y) && win.Contains(x + r - 1, y)) &&
      (x + r > w - 1 ==> win.xMax == w && win.Contains(w - 1, y)) &&
      (y + r <= h - 1 ==> win.yMax == y + r && !win.Contains(x, y + r) && win.Contains(x, y + r - 1)) &&
      (y + r > h - 1 ==> win.yMax == h && win.Contains(x, h - 1))
  {
  }

  /**
   * Away from the edges the window is lopsided: r columns (rows) before
   * the centre, r - 1 after it, so it holds 4 * r * r pixels rather than
   * the (2 * r + 1) squared of a centred box.
   */
  lemma InteriorWindowIsLopsided(w: int, h: int, r: int, x: int, y: int)
    requires 0 <= x < w && 0 <= y < h && r >= 1
    requires r <= x && x + r <= w - 1 && r <= y && y + r <= h - 1
    ensures var win := ClampWindow(w, h, r, x, y);
      x - win.xMin == r && win.xMax - 1 - x == r - 1 &&
      y - win.yMin == r && win.yMax - 1 - y == r - 1 &&
      win.Count() == 4 * r * r
  {
  }

  /**
   * A radius at least the image's width and height clamps every window
   * to the whole image, so every output pixel is the same global average.
   */
  lemma LargeRadiusIsGlobalAverage(pic: array3<Byte>, r: int, x: int, y: int)
    requires IsImage(pic) && 0 <= x < pic.Length0 && 0 <= y < pic.Length1
    requires r >= pic.Length0 && r >= pic.Length1
    ensures ClampWindow(pic.Length0, pic.Length1, r, x, y) == Window(0, pic.Length0, 0, pic.Length1)
    ensures Average(pic, r, x, y) == Average(pic, r, 0, 0)
  {
  }

  /** A 3 × 3 image whose red channel reads 10, 20, 30 / 40, 50, 60 / 70, 80, 90 row by row. */
  ghost predicate IsSample(pic: array3<Byte>)
    reads pic
  {
    IsImage(pic) && pic.Length0 == 3 && pic.Length1 == 3 &&
    forall x, y :: 0 <= x < 3 && 0 <= y < 3 ==> pic[x, y, 0] == 10 * (3 * y + x + 1)
  }

  /** Radius 1 at the centre sums only 10, 20, 40, 50 (a centred 3 × 3 box would give 50): the result is 30. */
  lemma SampleCentre(pic: array3<Byte>)
    requires IsSample(pic)
    ensures Average(pic, 1, 1, 1).r == 30
  {
    var win := ClampWindow(3, 3, 1, 1, 1);
    assert win == Window(0, 2, 0, 2);
    assert RowSum(pic, 0, 0, 0, 2) == 10 + 20 by { assert RowSum(pic, 0, 0, 0, 1) == 10; }
    assert RowSum(pic, 0, 1, 0, 2) == 40 + 50 by { assert RowSum(pic, 0, 1, 0, 1) == 40; }
    assert WindowSum(pic, 0, win) == 120 by { assert WindowSum(pic, 0, win.(yMax := 1)) == 30; }
  }

  /** Radius 1 at the top-left corner sums only the corner itself (a centred box would give 30): the result is 10. */
  lemma SampleTopLeft(pic: array3<Byte>)
    requires IsSample(pic)
    ensures Average(pic, 1, 0, 0).r == 10
  {
    var win := ClampWindow(3, 3, 1, 0, 0);
    assert win == Window(0, 1, 0, 1);
    assert RowSum(pic, 0, 0, 0, 1) == 10;
    assert WindowSum(pic, 0, win) == 10;
  }

  /** Radius 1 at the bottom-right corner sums 50, 60, 80, 90: the result is 70. */
  lemma SampleBottomRight(pic: array3<Byte>)
    requires IsSample(pic)
    ensures Average(pic, 1, 2, 2).r == 70
  {
    var win := ClampWindow(3, 3, 1, 2, 2);
    assert win == Window(1, 3, 1, 3);
    assert RowSum(pic, 0, 1, 1, 3) == 50 + 60 by { assert RowSum(pic, 0, 1, 1, 2) == 50; }
    assert RowSum(pic, 0, 2, 1, 3) == 80 + 90 by { assert RowSum(pic, 0, 2, 1, 2) == 80; }
    assert WindowSum(pic, 0, win) == 280 by { assert WindowSum(pic, 0, win.(yMax := 2)) == 110; }
  }
}
