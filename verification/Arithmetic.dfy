/** Integer facts that take a product to prove. */
module Arithmetic {
  lemma Distributes(a: int, b: int, d: int)
    ensures (a - b) * d == a * d - b * d
  {
  }

  lemma AtLeast(p: int, d: int)
    requires p >= 1 && d > 0
    ensures p * d >= d
  {
    assert (p - 1) * d >= 0;
  }

  /** A remainder is decided by any quotient it goes with. */
  lemma ModUnique(n: int, d: nat, q: int, r: int)
    requires 0 <= r < d && n == q * d + r
    ensures n % d == r
  {
    var p := n / d - q;
    Distributes(n / d, q, d);
    assert p * d == r - n % d;
    if p > 0 {
      AtLeast(p, d);
    } else if p < 0 {
      Distributes(q, n / d, d);
      AtLeast(q - n / d, d);
    }
  }
}
