/** Facts about Euclidean division on natural numbers that the progress and batch-count
    arithmetic needs. */
module Arith {
  lemma MulMono(a: nat, b: nat, d: nat)
    ensures a <= b ==> d * a <= d * b
  {
    if a <= b {
      assert d * b == d * a + d * (b - a);
    }
  }

  /** The quotient is determined by any decomposition with a remainder below the divisor. */
  lemma DivUnique(x: nat, d: nat, q: nat, r: nat)
    requires 0 <= r < d && x == d * q + r
    ensures x / d == q
  {
    var q' := x / d;
    MulMono(q + 1, q', d);
    MulMono(q' + 1, q, d);
    assert d * (q + 1) == d * q + d;
    assert d * (q' + 1) == d * q' + d;
  }

  lemma DivMonotone(x: nat, y: nat, d: nat)
    requires 0 < d && x <= y
    ensures x / d <= y / d
  {
    var qx, qy := x / d, y / d;
    MulMono(qy + 1, qx, d);
    assert d * (qy + 1) == d * qy + d;
  }

  lemma DivSelf(c: nat, d: nat)
    requires 0 < d
    ensures (c * d) / d == c
  {
    DivUnique(c * d, d, c, 0);
  }

  lemma DivPlusOne(x: nat, d: nat)
    requires 0 < d
    ensures (x + d) / d == x / d + 1
  {
    var q := x / d;
    var r := x % d;
    assert x + d == d * (q + 1) + r;
    DivUnique(x + d, d, q + 1, r);
  }
}
