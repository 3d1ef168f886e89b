/** Division with remainder. */
module Arithmetic {
  lemma MultiplyMonotone(d: nat, x: int, y: int)
    ensures x <= y ==> d * x <= d * y
  {
  }

  lemma DivideExactly(d: nat, q: nat, r: nat)
    requires r < d
    ensures (d * q + r) / d == q && (d * q + r) % d == r
  {
    var n := d * q + r;
    assert n == d * (n / d) + n % d;
    MultiplyMonotone(d, n / d + 1, q);
    MultiplyMonotone(d, q + 1, n / d);
  }
}
