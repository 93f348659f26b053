/** Remainders of products and sums, for any positive modulus. */
module Modular {
  import opened Powers

  /** A multiple of the modulus does not change the remainder. */
  lemma ModPlus(r: int, q: int, m: int)
    requires m > 0
    ensures (r + q * m) % m == r % m
  {
    var d := r / m;
    assert r == d * m + r % m;
    Distribute(d, q, m);
    SplitAt(d + q, r % m, m);
  }

  lemma ModOf(x: int, m: int) returns (q: int)
    requires m > 0
    ensures x == x % m + q * m
  {
    q := x / m;
  }

  lemma ModAdd(a: int, b: int, m: int)
    requires m > 0
    ensures (a % m + b) % m == (a + b) % m
  {
    var q := ModOf(a, m);
    ModPlus(a % m + b, q, m);
  }

  lemma ModMul(a: int, b: int, m: int)
    requires m > 0
    ensures (a % m * b) % m == (a * b) % m
  {
    var q := ModOf(a, m);
    assert a * b == a % m * b + (q * b) * m by {
      Distribute(a % m, q * m, b);
      Associate(q, m, b);
      Associate(q, b, m);
    }
    ModPlus(a % m * b, q * b, m);
  }
}
