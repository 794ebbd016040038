/** Monotonicity of multiplication, for offsets that are multiples of a record size. */
module Arithmetic {

  lemma {:induction false} MulMonotone(a: int, b: int, n: nat)
    requires a <= b
    ensures a * n <= b * n && (a - 1) * n + n == a * n && (a + 1) * n == a * n + n
  {
  }

  lemma {:induction false} DivideWhole(m: int, n: nat, o: nat)
    requires o < n
    ensures (m * n + o) / n == m
  {
    var q := (m * n + o) / n;
    assert (q - m) * n == q * n - m * n;
    if q < m { MulMonotone(q + 1, m, n); }
    if q > m { MulMonotone(m + 1, q, n); }
  }
}
