/** Facts about multiplication and division that the other modules need. */
module Arithmetic {
  lemma MulMono(x: int, y: int, k: int)
    requires x <= y && k >= 0
    ensures x * k <= y * k
  {
  }

  /** A multiple smaller in magnitude than its factor is zero. */
  lemma SmallMultiple(q: int, w: nat)
    requires 0 - w < q * w < w
    ensures q == 0
  {
    if q >= 1 { MulMono(1, q, w); }
    if q <= -1 { MulMono(q, -1, w); }
  }

  lemma NoOtherMultiple(d: int, w: nat)
    requires w > 0 && 0 - w < d < w && d % w == 0
    ensures d == 0
  {
    assert d == d / w * w;
    SmallMultiple(d / w, w);
  }

  /** Quotient and remainder are unique. */
  lemma Quotient(q: int, d: nat, w: nat)
    requires d < w
    ensures (q * w + d) / w == q && (q * w + d) % w == d
  {
    var n := q * w + d;
    var a, r := n / w, n % w;
    assert n == a * w + r;
    assert (q - a) * w == r - d;
    SmallMultiple(q - a, w);
  }

  /** A product at least as large in magnitude as its right factor. */
  lemma MulAtLeast(b: int, q: int)
    requires b > 0
    ensures q >= 0 ==> b * q >= q
    ensures q < 0 ==> b * q <= q
    ensures b > 1 && q > 0 ==> b * q >= 2 * q
  {
    if q >= 0 { MulMono(1, b, q); } else { MulMono(1, b, -q); assert b * -q == -(b * q); }
    if b > 1 && q > 0 { MulMono(2, b, q); }
  }

  /** Quotient and remainder of a natural number by a positive one. */
  lemma DivBounds(m: int, b: int)
    requires m >= 0 && b > 0
    ensures 0 <= m / b <= m
    ensures 0 <= m - b * (m / b) < b
    ensures b > 1 && m > 0 ==> m / b < m
  {
    var q := m / b;
    assert m == b * q + m % b;
    MulAtLeast(b, q);
  }

  lemma DivNegative(m: int, b: int)
    requires m >= 0 && b < 0
    ensures m / b == -(m / -b)
  {
    var q, p := m / b, m / -b;
    assert m == b * q + m % b;
    assert m == -b * p + m % -b;
    assert b * q == -b * -q;
    var k := -q - p;
    assert -b * -q - -b * p == -b * k;
    if k > 0 { MulMono(1, k, -b); }
    if k < 0 { MulMono(1, -k, -b); }
  }
}
