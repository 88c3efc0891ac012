/** Facts about integer multiplication and division that the solver does not find unaided. */
module Arith {

  /** Euclidean division of a non-negative dividend by a positive divisor. */
  lemma NaturalDivision(m: int, n: int)
    requires 0 <= m && 0 < n
    ensures 0 <= (m / n) * n <= m < (m / n) * n + n
  {
    var t := m / n;
    assert m == t * n + m % n;
    assert 0 <= t;
  }

  /** Flipping the signs of quotient and divisor together leaves their product alone. */
  lemma SignedProduct(t: int, n: int, q: int, b: int)
    requires q == t || q == -t
    requires b == n || b == -n
    ensures q * b == (if (q == t) == (b == n) then t * n else -(t * n))
  {
  }

  /** Multiplication distributes over addition. */
  lemma MulAdd(k: int, a: int, b: int)
    ensures k * (a + b) == k * a + k * b
  {
  }

  /** A strict inequality between multiples of a positive n bounds the factors. */
  lemma MulCancel(a: int, b: int, n: int)
    requires 1 <= n && a * n < (b + 1) * n
    ensures a <= b
  {
  }

  /** Multiplying by a non-negative n keeps the order. */
  lemma MulMono(a: int, b: int, n: int)
    requires 0 <= n && a <= b
    ensures a * n <= b * n
  {
    MulAdd(n, a, b - a);
  }

  /** A multiple of w strictly between -w and w is zero times w. */
  lemma ZeroFromSmallProduct(d: int, w: int)
    requires w >= 1 && -w < d * w < w
    ensures d == 0
  {
    if d >= 1 {
      MulMono(1, d, w);
    } else if d <= -1 {
      MulMono(d, -1, w);
    }
  }
}
