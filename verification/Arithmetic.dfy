/** Facts about products that the solver is not left to find. */
module Arithmetic {
  lemma MulOrder(a: int, b: int, c: nat)
    requires a <= b
    ensures a * c <= b * c
  {
    assert (b - a) * c >= 0;
    Distribute(a, b - a, c);
  }

  lemma Distribute(a: int, b: int, c: int)
    ensures (a + b) * c == a * c + b * c
  {
  }

  lemma Associate(a: int, b: int, c: int)
    ensures (a * b) * c == a * (b * c)
  {
  }

  lemma Commute(a: int, b: int)
    ensures a * b == b * a
  {
  }

  /** A quotient and a remainder are those of the division. */
  lemma Division(x: int, s: int, q: int, r: int)
    requires 0 <= r < s && x == q * s + r
    ensures x / s == q && x % s == r
  {
    var q', r' := x / s, x % s;
    Commute(s, q');
    if q < q' { MulOrder(q + 1, q', s); Distribute(q, 1, s); }
    if q' < q { MulOrder(q' + 1, q, s); Distribute(q', 1, s); }
  }
}
