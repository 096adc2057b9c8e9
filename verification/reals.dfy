/**
  Facts about multiplying and dividing reals that the solver does not find
  on its own.
 */
module Reals {

  /** Multiplying by a positive factor keeps a strict order. */
  lemma MulStrict(a: real, b: real, c: real)
    requires a < b && c > 0.0
    ensures a * c < b * c
  {
    assert (b - a) * c > 0.0;
  }

  /** Multiplying by a non-negative factor keeps a weak order. */
  lemma MulMono(a: real, b: real, c: real)
    requires a <= b && c >= 0.0
    ensures a * c <= b * c
  {
    assert (b - a) * c >= 0.0;
  }

  /** Multiplication distributes over a sum `s` of `x` and `y`. */
  lemma Distrib(c: real, x: real, y: real, s: real)
    requires s == x + y
    ensures c * s == c * x + c * y
  {
  }

  /** Two shares `a` and `b` of a non-zero whole `d` whose parts `a * d`
      and `b * d` add up to `d` add up to one. */
  lemma PartsOfWhole(a: real, b: real, d: real, x: real, y: real)
    requires d != 0.0 && a * d == x && b * d == y && x + y == d
    ensures a + b == 1.0
  {
    assert (a + b) * d == x + y;
    CancelFactor(a + b, 1.0, d);
  }

  /** A non-zero factor cancels. */
  lemma CancelFactor(x: real, y: real, c: real)
    requires c != 0.0 && x * c == y * c
    ensures x == y
  {
    assert (x - y) * c == 0.0;
  }

  /** Negating a factor negates the product. */
  lemma NegTimes(a: real, c: real)
    ensures a * (-c) == -(a * c)
  {
  }

  /** Anything times zero is zero. */
  lemma TimesZero(c: real, x: real)
    requires x == 0.0
    ensures c * x == 0.0
  {
  }

  /** A quotient is the only value that gives back the dividend. */
  lemma DivUnique(x: real, d: real, q: real)
    requires d != 0.0 && q * d == x
    ensures x / d == q
  {
    var p := x / d;
    assert p * d == x;
    assert (p - q) * d == 0.0;
  }

  /** Dividing and multiplying back by a non-zero divisor is the identity. */
  lemma DivTimes(n: real, d: real)
    requires d != 0.0
    ensures (n / d) * d == n
  {
  }

  /** A part of a positive whole, divided by the whole, is a fraction in
      `[0, 1]`; it is below 1 for a proper part and above 0 for a non-empty
      one. */
  lemma UnitQuotient(n: real, d: real)
    requires d > 0.0 && 0.0 <= n <= d
    ensures 0.0 <= n / d <= 1.0
    ensures n < d ==> n / d < 1.0
    ensures 0.0 < n ==> 0.0 < n / d
  {
    var q := n / d;
    DivTimes(n, d);
    if q < 0.0 {
      MulStrict(q, 0.0, d);
    }
    if q > 1.0 {
      MulStrict(1.0, q, d);
    }
    if q >= 1.0 {
      MulMono(1.0, q, d);
    }
    if q <= 0.0 {
      MulMono(q, 0.0, d);
    }
  }
}
