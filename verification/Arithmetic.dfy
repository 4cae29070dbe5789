/** The few facts about products and remainders that the exact-arithmetic modules share. */
module Arithmetic {

  lemma MulOrder(a: int, b: int, k: int)
    requires k > 0
    ensures a < b ==> a * k + k <= b * k
    ensures a <= b <==> a * k <= b * k
    ensures a == b <==> a * k == b * k
  {
    if a < b {
      MulAtLeast(b - a, k);
      assert (b - a) * k == b * k - a * k;
    } else {
      MulAtLeast(a - b + 1, k);
      assert (a - b + 1) * k == a * k - b * k + k;
      if b < a {
        MulAtLeast(a - b, k);
        assert (a - b) * k == a * k - b * k;
      }
    }
  }

  lemma MulAtLeast(n: int, k: int)
    requires n >= 1 && k > 0
    ensures n * k >= k
  {
    assert n * k == (n - 1) * k + k;
    assert (n - 1) * k >= 0;
  }

  /** Quotient and remainder are unique. */
  lemma RemainderIs(n: int, q: int, d: int, r: int)
    requires d > 0 && n == q * d + r && 0 <= r < d
    ensures n / d == q && n % d == r
  {
    var p := n / d;
    MulOrder(p, q, d);
    MulOrder(q, p, d);
  }

  lemma Distribute(a: int, b: int, k: int)
    ensures (a + b) * k == a * k + b * k
  {
  }

  lemma Associate(a: int, b: int, c: int)
    ensures a * b * c == a * (b * c)
    ensures a * (b * c) == (a * c) * b
  {
  }
}
