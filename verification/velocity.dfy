/**
  Velocities and Doppler factors shared by the wavelength-grid and kernel
  code: the speed of light `c_kms`, the factor `sqrt((c + v) / (c - v))` that
  a velocity `v` multiplies wavelengths by, and `v(ls, lo)` from
  PHOENIX_tools.py, the velocity that takes `ls` to `lo`.
 */
module Velocity {

  /** `c_kms`, in km/s. */
  const CKms: real := 299792.458

  /** `x ** 2`. */
  function Sq(x: real): (s: real)
    ensures s >= 0.0
  {
    x * x
  }

  lemma SqPositive(x: real)
    requires x != 0.0
    ensures Sq(x) > 0.0
  {
    if x > 0.0 {
      calc {
        Sq(x);
        x * x;
      >
        0.0;
      }
    } else {
      calc {
        Sq(x);
        (-x) * (-x);
      >
        0.0;
      }
    }
  }

  lemma SumSqPositive(a: real, b: real)
    requires a != 0.0 || b != 0.0
    ensures Sq(a) + Sq(b) > 0.0
  {
    if a != 0.0 { SqPositive(a); } else { SqPositive(b); }
  }

  lemma SqMul(x: real, y: real)
    ensures Sq(x * y) == Sq(x) * Sq(y)
  {
    calc {
      Sq(x * y);
      (x * y) * (x * y);
      (x * x) * (y * y);
      Sq(x) * Sq(y);
    }
  }

  /** `r` is the Doppler factor `sqrt((c + v) / (c - v))` of a velocity `v`
      with `|v| < c` (outside that range the square root is of a negative
      number or the division is by zero). The factor is passed in together
      with this relation instead of being computed. */
  predicate IsDopplerFactor(r: real, v: real) {
    -CKms < v < CKms && r >= 0.0 && Sq(r) == (CKms + v) / (CKms - v)
  }

  /** `v(ls, lo)`: the velocity between a source and an observed wavelength.
      Its size never exceeds `c`, it vanishes exactly between wavelengths of
      equal size, and it is positive exactly when the observed one is longer. */
  function V(ls: real, lo: real): (v: real)
    requires ls != 0.0 || lo != 0.0
    ensures -CKms <= v <= CKms
    ensures v == 0.0 <==> Sq(ls) == Sq(lo)
    ensures v > 0.0 <==> Sq(ls) < Sq(lo)
  {
    SumSqPositive(ls, lo);
    RatioWithinOne(Sq(lo) - Sq(ls), Sq(ls) + Sq(lo));
    CKms * ((Sq(lo) - Sq(ls)) / (Sq(ls) + Sq(lo)))
  }

  lemma RatioWithinOne(num: real, d: real)
    requires d > 0.0
    requires -d <= num <= d
    ensures -1.0 <= num / d <= 1.0
    ensures num / d == 0.0 <==> num == 0.0
    ensures num / d > 0.0 <==> num > 0.0
  {
    var q := num / d;
    assert q * d == num;
    if q > 0.0 {
      assert q * d > 0.0;
    }
  }

  lemma DivCancel(a: real, x: real, y: real)
    requires a != 0.0 && y != 0.0
    ensures (a * x) / (a * y) == x / y
  {
    var q := x / y;
    assert q * y == x;
    assert (a * y) * q == a * x;
  }

  /** `v(a, b) == -v(b, a)`. */
  lemma VAntisymmetric(a: real, b: real)
    requires a != 0.0 || b != 0.0
    ensures V(a, b) == -V(b, a)
  {
    SumSqPositive(a, b);
    var d := Sq(a) + Sq(b);
    var n := Sq(b) - Sq(a);
    NegDiv(n, d);
  }

  lemma NegDiv(n: real, d: real)
    requires d != 0.0
    ensures (-n) / d == -(n / d)
  {
    var q := n / d;
    assert q * d == n;
    assert (-q) * d == -n;
  }

  /** The factor is positive, and it is above, at or below 1 as the velocity
      is positive, zero or negative. */
  lemma DopplerFactorSign(r: real, v: real)
    requires IsDopplerFactor(r, v)
    ensures r > 0.0
    ensures v > 0.0 <==> r > 1.0
    ensures v == 0.0 <==> r == 1.0
    ensures v < 0.0 <==> r < 1.0
  {
    var q := (CKms + v) / (CKms - v);
    assert q * (CKms - v) == CKms + v;
    assert q > 0.0;
    assert v > 0.0 <==> q > 1.0;
    assert v == 0.0 <==> q == 1.0;
    if r > 1.0 {
      calc {
        Sq(r);
        r * r;
      >
        1.0 * r;
      >
        1.0;
      }
    } else if r < 1.0 {
      calc {
        Sq(r);
        r * r;
      <=
        1.0 * r;
      <
        1.0;
      }
    }
  }

  /** `(q - 1) / (q + 1)` for `q = (c + v) / (c - v)` is `v / c`. */
  lemma FactorRatio(v: real)
    requires -CKms < v < CKms
    ensures var q := (CKms + v) / (CKms - v);
      q + 1.0 > 0.0 && (q - 1.0) / (q + 1.0) == v / CKms
  {
    var d := CKms - v;
    var q := (CKms + v) / d;
    assert q * d == CKms + v;
    assert (q - 1.0) * d == 2.0 * v;
    assert (q + 1.0) * d == 2.0 * CKms;
    assert q + 1.0 > 0.0;
    DivCancel(d, q - 1.0, q + 1.0);
    assert d * (q - 1.0) == 2.0 * v && d * (q + 1.0) == 2.0 * CKms;
    DivCancel(2.0, v, CKms);
  }

  /** The velocity between `a` and `a` times the factor of `v` is `v`. */
  lemma VOfDopplerFactor(a: real, r: real, v: real)
    requires a != 0.0 && IsDopplerFactor(r, v)
    ensures V(a, a * r) == v
  {
    var q := (CKms + v) / (CKms - v);
    var s := Sq(a);
    SqPositive(a);
    SqMul(a, r);
    FactorRatio(v);
    assert Sq(a * r) == s * q;
    assert s * q - s == s * (q - 1.0);
    assert s + s * q == s * (q + 1.0);
    DivCancel(s, q - 1.0, q + 1.0);
    assert V(a, a * r) == CKms * (v / CKms);
  }

  /** The reciprocal of the factor of `v` is the factor of `-v`. */
  lemma DopplerInverse(r: real, v: real)
    requires IsDopplerFactor(r, v)
    ensures r > 0.0
    ensures IsDopplerFactor(1.0 / r, -v)
  {
    DopplerFactorSign(r, v);
    var q := (CKms + v) / (CKms - v);
    assert q * (CKms - v) == CKms + v;
    SqMul(r, 1.0 / r);
    assert r * (1.0 / r) == 1.0;
    assert Sq(1.0) == 1.0;
    assert Sq(r) * Sq(1.0 / r) == 1.0;
    assert Sq(1.0 / r) == 1.0 / q;
    DivCancel(CKms - v, 1.0, q);
    assert (CKms - v) * q == CKms + v;
  }
}
