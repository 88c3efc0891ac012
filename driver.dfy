/**
 * The raster driver: the per-pixel loop of `main` in OMP/hw4.c.
 *
 * It creates a destination image of the source's size and, for every
 * coordinate in row-major order, writes the three channels blurFilter
 * returns. The C code runs the two loops as one collapsed parallel loop;
 * here they run one iteration after another. Every pixel store goes
 * through SetPixel, which appends the coordinate it writes to a ghost log;
 * the log ends up listing each coordinate exactly once, in the order of the
 * collapsed iteration space, so each iteration writes its own pixel and no
 * pixel is written twice.
 */
module Driver {
  import opened Images
  import opened Averager
  import opened Arith

  /** The coordinate handled by iteration k of the collapsed loop over a width-w image. */
  function RowMajor(w: int, k: int): (int, int)
    requires w >= 1
  {
    (k % w, k / w)
  }

  /** The iteration of the collapsed loop that handles coordinate (x, y). */
  function Flat(w: int, x: int, y: int): int
  {
    y * w + x
  }

  /** Iteration Flat(w, x, y) handles (x, y). */
  lemma RowMajorOfFlat(w: int, x: int, y: int)
    requires w >= 1 && 0 <= x < w && 0 <= y
    ensures RowMajor(w, Flat(w, x, y)) == (x, y)
  {
    var k := Flat(w, x, y);
    var q, m := k / w, k % w;
    assert k == q * w + m && 0 <= m < w;
    assert (y - q) * w == m - x;
    ZeroFromSmallProduct(y - q, w);
  }

  /** Every iteration below w * h handles a coordinate of the w × h image. */
  lemma RowMajorInside(w: int, h: int, k: int)
    requires w >= 1 && 0 <= k < w * h
    ensures 0 <= RowMajor(w, k).0 < w && 0 <= RowMajor(w, k).1 < h
  {
    var q := k / w;
    assert q * w <= k < h * w;
    MulCancel(q, h - 1, w);
  }

  /** Two different iterations handle different coordinates. */
  lemma RowMajorInjective(w: int, k: int, l: int)
    requires w >= 1 && k != l
    ensures RowMajor(w, k) != RowMajor(w, l)
  {
    assert k == (k / w) * w + k % w;
    assert l == (l / w) * w + l % w;
  }

  /** Coordinate (x, y) of the w × h image is handled by an iteration below w * h. */
  lemma FlatInside(w: int, h: int, x: int, y: int)
    requires w >= 1 && 0 <= x < w && 0 <= y < h
    ensures 0 <= Flat(w, x, y) < w * h
  {
    MulAdd(w, y, 1);
    assert y * w + x < (y + 1) * w;
    MulMono(y + 1, h, w);
  }

  /**
   * The iterations 0 .. w * h - 1 of the collapsed loop and the coordinates
   * of a w × h image correspond one to one: every iteration handles a
   * coordinate inside the image, two iterations never handle the same one,
   * and every coordinate is handled by one of them.
   */
  lemma RowMajorIsBijection(w: int, h: int)
    requires w >= 1 && h >= 0
    ensures forall k :: 0 <= k < w * h ==> 0 <= RowMajor(w, k).0 < w && 0 <= RowMajor(w, k).1 < h
    ensures forall k, l :: 0 <= k < l ==> RowMajor(w, k) != RowMajor(w, l)
    ensures forall x, y :: 0 <= x < w && 0 <= y < h ==>
      0 <= Flat(w, x, y) < w * h && RowMajor(w, Flat(w, x, y)) == (x, y)
  {
    forall k | 0 <= k < w * h
      ensures 0 <= RowMajor(w, k).0 < w && 0 <= RowMajor(w, k).1 < h
    {
      RowMajorInside(w, h, k);
    }
    forall k, l | 0 <= k < l
      ensures RowMajor(w, k) != RowMajor(w, l)
    {
      RowMajorInjective(w, k, l);
    }
    forall x, y | 0 <= x < w && 0 <= y < h
      ensures 0 <= Flat(w, x, y) < w * h && RowMajor(w, Flat(w, x, y)) == (x, y)
    {
      FlatInside(w, h, x, y);
      RowMajorOfFlat(w, x, y);
    }
  }

  /**
   * The three ImageSetPixel calls that store one averaged pixel. The ghost
   * log of pixel writes gains exactly the coordinate written, so every
   * store into the destination shows up in the log.
   */
  method SetPixel(img: array3<Byte>, x: int, y: int, p: Pix, ghost log: seq<(int, int)>)
    returns (ghost written: seq<(int, int)>)
    requires IsImage(img) && 0 <= x < img.Length0 && 0 <= y < img.Length1
    requires 0 <= p.r < 256 && 0 <= p.g < 256 && 0 <= p.b < 256
    modifies img
    ensures written == log + [(x, y)]
    ensures forall c :: 0 <= c < Channels ==> img[x, y, c] == p.Channel(c)
    ensures forall i, j, c :: 0 <= i < img.Length0 && 0 <= j < img.Length1 && 0 <= c < Channels && (i, j) != (x, y) ==>
      img[i, j, c] == old(img[i, j, c])
  {
    img[x, y, 0] := p.r;
    img[x, y, 1] := p.g;
    img[x, y, 2] := p.b;
    written := log + [(x, y)];
  }

  /**
   * One pass of the inner loop: row y of the destination receives
   * blurFilter's result for every column, left to right, and no other row
   * changes. The log of pixel writes grows by the row's coordinates in
   * order and by nothing else.
   */
  method BlurRow(pic: array3<Byte>, r: int, dst: array3<Byte>, y: int, ghost log: seq<(int, int)>)
    returns (ghost written: seq<(int, int)>)
    requires IsImage(pic) && IsImage(dst) && dst != pic
    requires dst.Length0 == pic.Length0 && dst.Length1 == pic.Length1
    requires 0 <= y < pic.Length1 && (r != 0 || pic.Length0 == 0)
    modifies dst
    ensures forall x, c :: 0 <= x < dst.Length0 && 0 <= c < Channels ==> dst[x, y, c] == Average(pic, r, x, y).Channel(c)
    ensures forall x, j, c :: 0 <= x < dst.Length0 && 0 <= j < dst.Length1 && 0 <= c < Channels && j != y ==>
      dst[x, j, c] == old(dst[x, j, c])
    ensures written == log + seq(dst.Length0, x => (x, y))
  {
    var w, h := pic.Length0, pic.Length1;
    written := log;
    var j := 0;
    while j < w
      invariant 0 <= j <= w
      invariant written == log + seq(j, x => (x, y))
      invariant forall x, c :: 0 <= x < j && 0 <= c < Channels ==> dst[x, y, c] == Average(pic, r, x, y).Channel(c)
      invariant forall x, i, c :: 0 <= x < w && 0 <= i < h && 0 <= c < Channels && i != y ==>
        dst[x, i, c] == old(dst[x, i, c])
    {
      var avg := BlurFilter(pic, w, h, r, j, y);
      AverageIsByte(pic, r, j, y);
      written := SetPixel(dst, j, y, avg, written);
      j := j + 1;
    }
  }

  /**
   * The driver loop: the destination has the source's size, every channel
   * of every pixel holds blurFilter's result for that coordinate, every
   * coordinate is written exactly once and the source is left as it was.
   * A zero radius is refused unless the image is empty, because then the
   * loop body never calls blurFilter.
   */
  method Render(pic: array3<Byte>, r: int) returns (dst: array3<Byte>, ghost order: seq<(int, int)>)
    requires IsImage(pic)
    requires r != 0 || pic.Length0 == 0 || pic.Length1 == 0
    ensures fresh(dst) && IsImage(dst) && unchanged(pic)
    ensures dst.Length0 == pic.Length0 && dst.Length1 == pic.Length1
    ensures forall x, y, c :: 0 <= x < dst.Length0 && 0 <= y < dst.Length1 && 0 <= c < Channels ==>
      dst[x, y, c] == Average(pic, r, x, y).Channel(c)
    ensures |order| == pic.Length0 * pic.Length1
    ensures forall k :: 0 <= k < |order| ==> 0 <= order[k].0 < pic.Length0 && 0 <= order[k].1 < pic.Length1
    ensures forall k, l :: 0 <= k < l < |order| ==> order[k] != order[l]
    ensures forall x, y :: 0 <= x < pic.Length0 && 0 <= y < pic.Length1 ==>
      0 <= Flat(pic.Length0, x, y) < |order| && order[Flat(pic.Length0, x, y)] == (x, y)
  {
    var w, h := pic.Length0, pic.Length1;
    dst := new Byte[w, h, Channels]((x, y, c) => 0);
    order := [];
    var i := 0;
    while i < h
      invariant 0 <= i <= h
      invariant |order| == i * w
      invariant forall k :: 0 <= k < |order| ==> w >= 1 && order[k] == RowMajor(w, k)
      invariant forall x, y, c :: 0 <= x < w && 0 <= y < i && 0 <= c < Channels ==>
        dst[x, y, c] == Average(pic, r, x, y).Channel(c)
    {
      order := BlurRow(pic, r, dst, i, order);
      forall k | i * w <= k < i * w + w
        ensures order[k] == RowMajor(w, k)
      {
        RowMajorOfFlat(w, k - i * w, i);
      }
      i := i + 1;
    }
    if w >= 1 {
      RowMajorIsBijection(w, h);
    }
  }
}
