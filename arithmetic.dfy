/** Small facts about integer division and real multiplication that the payout
    proofs rely on. */
module Arithmetic {

  /** What integer division by a positive divisor means. */
  lemma QuotientBounds(n: int, d: int, q: int)
    requires 0 < d && q == n / d
    ensures d * q <= n < d * q + d
  {
  }

  lemma MulMonotone(d: int, x: int, y: int)
    requires 0 <= d && x <= y
    ensures d * x <= d * y
  {
    assert d * y - d * x == d * (y - x);
  }

  /** Integer division by a positive divisor is monotone. */
  lemma DivMonotone(a: int, b: int, d: int)
    requires 0 < d && a <= b
    ensures a / d <= b / d
  {
    var qa, qb := a / d, b / d;
    QuotientBounds(a, d, qa);
    QuotientBounds(b, d, qb);
    MulMonotone(d, qb + 1, if qa < qb + 1 then qb + 1 else qa);
  }

  /** Dividing d·k + r by d, with 0 <= r < d, gives k. */
  lemma DivExact(d: int, k: int, r: int)
    requires 0 <= r < d
    ensures (d * k + r) / d == k
  {
    var q := (d * k + r) / d;
    QuotientBounds(d * k + r, d, q);
    MulMonotone(d, k + 1, if q < k + 1 then k + 1 else q);
    MulMonotone(d, q + 1, if k < q + 1 then q + 1 else k);
  }

  /** (2a + s) / 2s is a / s rounded half up: the bounds that say so. */
  lemma HalfUpQuotient(a: int, s: int, q: int)
    requires 0 < s && 0 <= a && q == (2 * a + s) / (2 * s)
    ensures 0 <= q
    ensures 2 * s * q <= 2 * a + s < 2 * s * q + 2 * s
  {
    QuotientBounds(2 * a + s, 2 * s, q);
    MulMonotone(2 * s, q, if q < 0 then -1 else q);
  }

  lemma CastProduct(x: int, y: int)
    ensures (x * y) as real == (x as real) * (y as real)
  {
  }

  lemma RealMulMonotone(s: real, x: real, y: real)
    requires 0.0 < s && x <= y
    ensures x * s <= y * s
  {
    assert y * s - x * s == (y - x) * s;
  }

  lemma RealMulStrict(s: real, x: real, y: real)
    requires 0.0 < s && x < y
    ensures x * s < y * s
  {
    assert y * s - x * s == (y - x) * s;
  }

  lemma RealCancel(s: real, u: real, v: real)
    requires 0.0 < s && u * s <= v * s
    ensures u <= v
  {
    RealMulStrict(s, v, if u > v then u else v + 1.0);
  }

  lemma RealCancelStrict(s: real, u: real, v: real)
    requires 0.0 < s && u * s < v * s
    ensures u < v
  {
    RealMulMonotone(s, v, if u >= v then u else v);
  }

  /** An integer q with 2sq <= 2a + s < 2sq + 2s is a / s rounded to the
      nearest integer, halves upwards. */
  lemma NearestInteger(a: int, s: int, q: int)
    requires 0 < s
    requires 2 * s * q <= 2 * a + s < 2 * s * q + 2 * s
    ensures q as real - 0.5 <= a as real / s as real < q as real + 0.5
  {
    var ar, sr, qr := a as real, s as real, q as real;
    CastProduct(s, q);
    assert (2.0 * qr - 1.0) * sr <= 2.0 * ar < (2.0 * qr + 1.0) * sr;
    var y := ar / sr;
    assert y * sr == ar;
    assert (2.0 * y) * sr == 2.0 * ar;
    RealCancel(sr, 2.0 * qr - 1.0, 2.0 * y);
    RealCancelStrict(sr, 2.0 * y, 2.0 * qr + 1.0);
  }
}
