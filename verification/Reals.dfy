/** Ordered-field facts about real products and quotients. */
module Reals {

  lemma ScaleMono(x: real, y: real, c: real)
    requires 0.0 <= c && x <= y
    ensures x * c <= y * c && c * x <= c * y
  {
  }

  lemma ScaleStrict(x: real, y: real, c: real)
    requires 0.0 < c
    ensures x < y ==> x * c < y * c
  {
  }

  lemma ProductMono(a: real, b: real, m: real, n: real)
    requires 0.0 <= a <= b && 0.0 <= m <= n
    ensures 0.0 <= a * m <= b * n
  {
    ScaleMono(a, b, m);
    ScaleMono(m, n, b);
    ScaleMono(0.0, a, m);
  }

  lemma QuotientTimes(x: real, d: real)
    requires d != 0.0
    ensures (x / d) * d == x
  {
  }

  /** Dividing by a positive number keeps the order. */
  lemma QuotientMono(x: real, y: real, d: real)
    requires 0.0 < d && x <= y
    ensures x / d <= y / d
  {
    QuotientTimes(x, d);
    QuotientTimes(y, d);
    ScaleStrict(y / d, x / d, d);
  }

  lemma QuotientBounds(x: real, d: real)
    requires 0.0 < d
    ensures 0.0 <= x ==> 0.0 <= x / d
    ensures x <= d ==> x / d <= 1.0
  {
    QuotientTimes(x, d);
    assert 0.0 / d == 0.0 && d / d == 1.0;
    if 0.0 <= x { QuotientMono(0.0, x, d); }
    if x <= d { QuotientMono(x, d, d); }
  }

  lemma QuotientWithin(x: real, d: real)
    requires 0.0 < d && -d <= x <= d
    ensures -1.0 <= x / d <= 1.0
  {
    QuotientBounds(x, d);
    QuotientBounds(-x, d);
    QuotientTimes(x, d);
    QuotientTimes(-x, d);
    NegatedQuotient(x, d);
  }

  lemma NegatedQuotient(x: real, d: real)
    requires d != 0.0
    ensures (-x) / d == -(x / d)
  {
    var q := x / d;
    QuotientTimes(x, d);
    assert (-q) * d == -x;
    assert ((-q) * d) / d == -q;
  }

  /** A larger positive divisor gives a smaller non-negative quotient. */
  lemma QuotientAnti(c: real, x: real, y: real)
    requires 0.0 <= c && 0.0 < x <= y
    ensures 0.0 <= c / y <= c / x
  {
    QuotientBounds(c, x);
    QuotientBounds(c, y);
    var q := c / x;
    QuotientTimes(c, x);
    ScaleMono(x, y, q);
    QuotientMono(c, q * y, y);
    assert (q * y) / y == q;
  }

  /** Cross-multiplied fractions with positive denominators compare as fractions. */
  lemma CrossMultiply(a: real, b: real, c: real, d: real)
    requires 0.0 < b && 0.0 < d && a * d <= c * b
    ensures a / b <= c / d
  {
    QuotientTimes(a, b);
    QuotientMono(a * d, c * b, b * d);
    assert (a * d) / (b * d) == a / b by { Cancel(a, b, d); }
    assert (c * b) / (b * d) == c / d by { Cancel(c, d, b); assert d * b == b * d; }
  }

  lemma Cancel(a: real, b: real, d: real)
    requires b != 0.0 && d != 0.0
    ensures b * d != 0.0 && (a * d) / (b * d) == a / b
  {
    QuotientTimes(a, b);
    var q := a / b;
    assert a * d == q * (b * d);
    QuotientTimes(a * d, b * d);
  }

  lemma SquareStrict(a: real, b: real)
    requires 0.0 <= a && 0.0 <= b
    ensures a < b ==> a * a < b * b
  {
    if a < b {
      assert b * b - a * a == (b - a) * (b + a);
      assert (b - a) * (b + a) > 0.0 by { ScaleStrict(0.0, b - a, b + a); }
    }
  }

  /** What is assumed of the square root: it squares back, and is not negative. */
  ghost predicate IsSqrt(sqrt: real -> real) {
    forall x: real :: 0.0 <= x ==> 0.0 <= sqrt(x) && sqrt(x) * sqrt(x) == x
  }

  lemma SqrtMono(sqrt: real -> real, x: real, y: real)
    requires IsSqrt(sqrt) && 0.0 <= x <= y
    ensures 0.0 <= sqrt(x) <= sqrt(y)
  {
    assert sqrt(x) * sqrt(x) == x && sqrt(y) * sqrt(y) == y;
    SquareStrict(sqrt(y), sqrt(x));
  }

  lemma SqrtAboveOne(sqrt: real -> real, x: real)
    requires IsSqrt(sqrt) && 1.0 <= x
    ensures 1.0 <= sqrt(x)
  {
    assert sqrt(x) * sqrt(x) == x;
    SquareStrict(sqrt(x), 1.0);
  }
}
