/** Facts about multiplication, Euclidean division and powers that the solver needs spelled out. */
module Arithmetic {

  /** Multiplying by a positive number keeps strict order, by at least one whole step. */
  lemma MulStep(a: int, b: int, c: int)
    requires 0 < c
    ensures a < b ==> a * c + c <= b * c
    ensures b < a ==> b * c + c <= a * c
  {
    Surplus(b - a - 1, c);
    Surplus(a - b - 1, c);
    assert (b - a - 1) * c == b * c - a * c - c;
    assert (a - b - 1) * c == a * c - b * c - c;
  }

  lemma Surplus(k: int, c: int)
    requires 0 < c
    ensures 0 <= k ==> 0 <= k * c
  {
  }

  lemma MulAssociates(a: int, b: int, c: int)
    ensures (a * b) * c == a * (b * c)
  {
  }

  lemma MulMono(a: int, b: int, c: int)
    requires 0 <= c && a <= b
    ensures a * c <= b * c
  {
  }

  /** Quotient and remainder are determined by the division equation. */
  lemma DivModUnique(x: int, d: int, q: int, r: int)
    requires 0 <= r < d && x == q * d + r
    ensures x / d == q && x % d == r
  {
    assert (x / d) * d + x % d == x;
    MulStep(x / d, q, d);
  }

  lemma ModSuccessor(k: nat, d: nat)
    requires 0 < d
    ensures (k % d + 1) % d == (k + 1) % d
  {
    var q, r := k / d, k % d;
    assert k == q * d + r;
    if r + 1 < d {
      DivModUnique(k + 1, d, q, r + 1);
      DivModUnique(r + 1, d, 0, r + 1);
    } else {
      assert k + 1 == (q + 1) * d by { assert (q + 1) * d == q * d + d; }
      DivModUnique(k + 1, d, q + 1, 0);
      DivModUnique(r + 1, d, 1, 0);
    }
  }

  lemma ModPlusPeriod(k: nat, d: nat)
    requires 0 < d
    ensures (k + d) % d == k % d
  {
    assert k == (k / d) * d + k % d;
    assert k + d == (k / d + 1) * d + k % d;
    DivModUnique(k + d, d, k / d + 1, k % d);
  }

  /** Two numbers less than one period apart with equal remainders are equal. */
  lemma ModInjective(a: nat, b: nat, d: nat)
    requires 0 < d && a <= b < a + d
    ensures a % d == b % d ==> a == b
  {
    var qa, qb := a / d, b / d;
    assert a == qa * d + a % d && b == qb * d + b % d;
    MulStep(qa, qb, d);
  }
}
