/** Facts about quotients and remainders by a variable. */
module Quotients {

  lemma Next(n: nat, d: nat)
    requires d > 0
    ensures (n + 1) / d == n / d + if (n + 1) % d == 0 then 1 else 0
  {
    var q, r := n / d, n % d;
    assert n == q * d + r;
    if r + 1 == d {
      assert n + 1 == (q + 1) * d;
      Divides(q + 1, d, 0);
    } else {
      Divides(q, d, r + 1);
    }
  }

  lemma Divides(q: nat, d: nat, r: nat)
    requires r < d
    ensures (q * d + r) / d == q && (q * d + r) % d == r
  {
    var n := q * d + r;
    assert (n / d - q) * d == r - n % d;
    if n / d != q {
      Multiples(n / d - q, d);
    }
  }

  /** A nonzero multiple of d is at least d away from zero. */
  lemma Multiples(x: int, d: int)
    requires d > 0 && x != 0
    ensures x * d >= d || x * d <= -d
  {
    if x > 0 {
      assert (x - 1) * d >= 0;
    } else {
      assert (-x - 1) * d >= 0;
    }
  }
}
