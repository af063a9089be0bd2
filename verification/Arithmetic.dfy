/**
 The few facts about products and quotients that the exact arithmetic rests on. Each is stated over
 plain variables and proved on its own, because the solver handles one product at a time well and
 several together badly; the limb and rounding lemmas then only put them together, naming the terms
 they need.
 */
module Arithmetic {

  lemma {:induction false} MulLe(a: int, b: int, p: nat)
    requires a <= b
    ensures a * p <= b * p
  {
  }

  lemma {:induction false} Distribute(x: int, y: int, p: int)
    ensures (x + y) * p == x * p + y * p
  {
  }

  lemma {:induction false} Associate(x: int, y: int, z: int)
    ensures (x * y) * z == x * (y * z)
  {
  }

  lemma {:induction false} Swap(x: int, y: int, z: int)
    ensures (x * y) * z == (x * z) * y
  {
  }

  /** Quotient and remainder are unique. */
  lemma {:induction false} Divides(n: nat, m: nat, d: nat, r: nat)
    requires n == d * m + r && r < m
    ensures n / m == d && n % m == r
  {
    var e, s := n / m, n % m;
    assert n == e * m + s;
    if d > e {
      MulLe(e + 1, d, m);
      Distribute(e, 1, m);
    } else if d < e {
      MulLe(d + 1, e, m);
      Distribute(d, 1, m);
    }
  }

  lemma {:induction false} QuotientRemainder(n: nat, m: nat) returns (d: nat, r: nat)
    requires m > 0
    ensures d == n / m && r == n % m && n == d * m + r && r < m
  {
    d, r := n / m, n % m;
  }

  lemma {:induction false} AtLeastOnce(n: nat, m: nat)
    requires n >= m > 0
    ensures n / m > 0
  {
  }

  /** Dividing by a product cuts twice. */
  lemma {:induction false} CutTwice(low: nat, high: nat, p: nat, q: nat)
    requires low < p && q > 0
    ensures p * q > 0
    ensures (low + high * p) / (p * q) == high / q
    ensures (low + high * p) % (p * q) == low + (high % q) * p
  {
    var d, r := QuotientRemainder(high, q);
    Distribute(d * q, r, p);
    Associate(d, q, p);
    assert q * p == p * q;
    MulLe(r + 1, q, p);
    Distribute(r, 1, p);
    Divides(low + high * p, p * q, d, low + r * p);
  }

  /** Multiples of the modulus do not change a remainder. */
  lemma {:induction false} DropMultiple(x: nat, k: nat, p: nat)
    requires p > 0
    ensures (x + k * p) % p == x % p
    ensures (x + k * p) / p == x / p + k
  {
    var d, r := QuotientRemainder(x, p);
    Distribute(d, k, p);
    Divides(x + k * p, p, d + k, r);
  }
}
