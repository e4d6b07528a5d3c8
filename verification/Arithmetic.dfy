/** Facts about multiplication and division that the solver needs one at a time. */
module Arithmetic {
  lemma Distribute(p: int, a: int, b: int)
    ensures p * (a + b) == p * a + p * b
  {}

  lemma Associate(p: int, m: int, t: int)
    ensures p * m * t == p * (m * t)
  {}

  lemma MulMonotone(p: int, a: int, b: int)
    requires p >= 0 && a <= b
    ensures p * a <= p * b
  {
    Distribute(p, a, b - a);
    assert p * (b - a) >= 0;
  }

  lemma AtLeastNext(p: int, q: int, r: int)
    requires p > 0 && p * q < p * r
    ensures q < r && p * q + p <= p * r
  {
    if q >= r {
      MulMonotone(p, r, q);
      assert false;
    }
    MulMonotone(p, q + 1, r);
    Distribute(p, q, 1);
  }

  /** Quotient and remainder are unique. */
  lemma DivMod(z: int, m: int, q: int, r: int)
    requires 0 <= r < m && z == m * q + r
    ensures z / m == q && z % m == r
  {
    var d := z / m - q;
    assert z == m * (z / m) + z % m;
    Distribute(m, q, d);
    if d >= 1 { MulMonotone(m, 1, d); assert false; }
    if d <= -1 { MulMonotone(m, d, -1); assert false; }
  }

  /** A factor common to two products. */
  lemma Factor(d: int, s: int, j: int, t: int, k: int)
    ensures s * (d * j) + t * (d * k) == d * (s * j + t * k)
  {
    Distribute(d, s * j, t * k);
    Associate(d, s, j);
    Associate(d, t, k);
    Associate(s, d, j);
    Associate(t, d, k);
  }
}
