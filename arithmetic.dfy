/** Integer facts the index arithmetic of the sprite sheets, the ImageData
    buffers and the coin counter rests on. */
module Arithmetic {

  /** Multiplying by a natural number keeps an order. */
  lemma {:induction false} MulLeq(a: int, b: int, n: nat)
    requires a <= b
    ensures a * n <= b * n
    decreases n
  {
    if n > 0 {
      MulLeq(a, b, n - 1);
      assert a * n == a * (n - 1) + a;
      assert b * n == b * (n - 1) + b;
    }
  }

  /** Euclidean division is unique: x == q * n + m with 0 <= m < n. */
  lemma DivModUnique(x: int, n: int, q: int, m: int)
    requires 0 < n && 0 <= m < n && x == q * n + m
    ensures x / n == q && x % n == m
  {
    var q', m' := x / n, x % n;
    assert x == q' * n + m';
    assert (q' - q) * n == m - m';
    if q' - q >= 1 {
      MulLeq(1, q' - q, n);
    } else if q' - q <= -1 {
      MulLeq(q' - q, -1, n);
    }
  }
}
