/** Facts about Euclidean division that the digit and bit recursions need. */
module Arithmetic {

  /** Division by `k * p` in two stages: first by `k`, then by `p`. */
  lemma DivModSplit(b: nat, k: nat, p: nat)
    requires k >= 1 && p >= 1
    ensures b % (k * p) == k * ((b / k) % p) + b % k
    ensures b / (k * p) == (b / k) / p
  {
    var q := (b / k) / p;
    var r := (b / k) % p;
    assert b / k == q * p + r;
    assert b == q * (k * p) + (k * r + b % k);
    assert k * r + b % k < k * p by {
      MulAtLeast(p - r, k);
      assert k * (p - r) == k * p - k * r;
    }
    DivModUnique(b, k * p, q, k * r + b % k);
  }

  /** Quotient and remainder are the only ones with the remainder in range. */
  lemma DivModUnique(b: int, m: int, q: int, r: int)
    requires m > 0 && 0 <= r < m && b == q * m + r
    ensures b % m == r && b / m == q
  {
    var q', r' := b / m, b % m;
    assert (q' - q) * m == r - r';
    if q' > q {
      MulAtLeast(q' - q, m);
    } else if q' < q {
      MulAtLeast(q - q', m);
    }
  }

  lemma MulAtLeast(d: int, m: int)
    requires d >= 1 && m > 0
    ensures d * m >= m
  {
    if d > 1 {
      MulAtLeast(d - 1, m);
      assert d * m == (d - 1) * m + m;
    }
  }
}
