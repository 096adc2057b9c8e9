/**
  The broadening-kernel abscissa (`karray` in model.py) with the `np.arange`
  it is built from.
 */
module Kernel {
  import opened Errors
  import opened Seqs
  import opened Reals

  /** `ceil(x)`. */
  function Ceil(x: real): (n: int)
    ensures (n - 1) as real < x <= n as real
  {
    -((-x).Floor)
  }

  /** The ceiling is the only integer with that property. */
  lemma CeilUnique(x: real, n: int)
    requires (n - 1) as real < x <= n as real
    ensures Ceil(x) == n
  {
  }

  /** `np.arange(start, stop, step)`: `max(ceil((stop - start) / step), 0)`
      values `start + i * step`. A zero step divides by zero. */
  function ARange(start: real, stop: real, step: real): (r: Result<seq<real>>)
    ensures r.Err? <==> step == 0.0
    ensures r.Err? ==> r.error == DivisionByZero
    ensures r.Ok? ==> forall i :: 0 <= i < |r.value| ==> r.value[i] == start + i as real * step
  {
    if step == 0.0 then Err(DivisionByZero)
    else
      var n := Ceil((stop - start) / step);
      Ok(seq(if n < 0 then 0 else n, i => start + i as real * step))
  }

  /** `np.arange` stops just before `stop`: every value lies on the `start`
      side of `stop` and the next value would not. */
  lemma ARangeStops(start: real, stop: real, step: real)
    requires step != 0.0
    ensures var s := ARange(start, stop, step).value;
      && (step > 0.0 ==>
            (forall i :: 0 <= i < |s| ==> s[i] < stop) && start + |s| as real * step >= stop)
      && (step < 0.0 ==>
            (forall i :: 0 <= i < |s| ==> s[i] > stop) && start + |s| as real * step <= stop)
  {
    var s := ARange(start, stop, step).value;
    var x := (stop - start) / step;
    var n := Ceil(x);
    assert x * step == stop - start;
    forall i | 0 <= i < |s|
      ensures step > 0.0 ==> s[i] < stop
      ensures step < 0.0 ==> s[i] > stop
    {
      StepBefore(start, stop, step, x, i as real);
    }
    StepPast(start, stop, step, x, |s| as real);
  }

  /** A point `i` steps from `start`, with `i` below the number of steps
      `x` that reach `stop`, is still on the `start` side of `stop`. */
  lemma StepBefore(start: real, stop: real, step: real, x: real, i: real)
    requires step != 0.0 && x * step == stop - start && 0.0 <= i < x
    ensures step > 0.0 ==> start + i * step < stop
    ensures step < 0.0 ==> start + i * step > stop
  {
    if step > 0.0 {
      MulStrict(i, x, step);
    } else {
      MulStrict(i, x, -step);
      NegTimes(i, step);
      NegTimes(x, step);
    }
  }

  /** A point at least the number of steps `x` that reach `stop` away from
      `start` is at or beyond `stop`. */
  lemma StepPast(start: real, stop: real, step: real, x: real, m: real)
    requires step != 0.0 && x * step == stop - start && x <= m
    ensures step > 0.0 ==> start + m * step >= stop
    ensures step < 0.0 ==> start + m * step <= stop
  {
    if step > 0.0 {
      MulMono(x, m, step);
    } else {
      MulMono(x, m, -step);
      NegTimes(x, step);
      NegTimes(m, step);
    }
  }

  /** Sequence reversal (`[::-1]`). */
  function Reverse<T>(s: seq<T>): (r: seq<T>)
    ensures |r| == |s|
    ensures forall i :: 0 <= i < |s| ==> r[i] == s[|s| - 1 - i]
  {
    seq(|s|, i requires 0 <= i < |s| => s[|s| - 1 - i])
  }

  /** `karray(center, width, res)`: the reversed run below `center` in steps
      of `res`, then the run from `center` upwards. */
  function KArray(center: real, width: real, res: real): (r: Result<seq<real>>)
    ensures r.Err? <==> res == 0.0
  {
    match ARange(center - res, center - width, -res)
    case Err(e) => Err(e)
    case Ok(neg) =>
      match ARange(center, center + width, res)
      case Err(e) => Err(e)
      case Ok(pos) => Ok(Reverse(neg) + pos)
  }

  /** For a positive width and resolution the kernel abscissa has `2n - 1`
      values for `n = ceil(width / res)`, an odd number; the middle one is
      `center`; consecutive values are `res` apart; it increases strictly, is
      symmetric about `center` and stays strictly inside
      `(center - width, center + width)`. */
  lemma KArrayShape(center: real, width: real, res: real)
    requires width > 0.0 && res > 0.0
    ensures KArray(center, width, res).Ok?
    ensures var k := KArray(center, width, res).value;
      var n := Ceil(width / res);
      && n >= 1 && |k| == 2 * n - 1 && |k| % 2 == 1
      && k[n - 1] == center
      && (forall j :: 0 <= j < |k| ==> k[j] == center + (j - (n - 1)) as real * res)
      && StrictlyIncreasing(k)
      && (forall j :: 0 <= j < |k| ==> k[j] + k[|k| - 1 - j] == 2.0 * center)
      && (forall j :: 0 <= j < |k| ==> center - width < k[j] < center + width)
  {
    var q := width / res;
    var n := Ceil(q);
    assert q * res == width;
    assert q > 0.0;
    var neg := ARange(center - res, center - width, -res).value;
    var pos := ARange(center, center + width, res).value;
    assert (center + width - center) / res == q;
    assert |pos| == n;
    DivUnique((center - width) - (center - res), -res, q - 1.0);
    CeilUnique(q - 1.0, n - 1);
    assert |neg| == n - 1;
    var k := Reverse(neg) + pos;
    assert KArray(center, width, res).value == k;
    JoinedRuns(neg, pos, center, res, n);
    KernelOrderAndRange(k, center, width, res, q, n);
  }

  /** The reversed downward run from `center - res` followed by the upward
      run from `center` is one evenly spaced run with `center` at `n - 1`. */
  lemma JoinedRuns(neg: seq<real>, pos: seq<real>, center: real, res: real, n: int)
    requires n >= 1 && |neg| == n - 1 && |pos| == n
    requires forall i :: 0 <= i < |neg| ==> neg[i] == (center - res) + i as real * (-res)
    requires forall i :: 0 <= i < |pos| ==> pos[i] == center + i as real * res
    ensures var k := Reverse(neg) + pos;
      forall j :: 0 <= j < |k| ==> k[j] == center + (j - (n - 1)) as real * res
  {
    var k := Reverse(neg) + pos;
    forall j | 0 <= j < |k|
      ensures k[j] == center + (j - (n - 1)) as real * res
    {
      if j < n - 1 {
        assert k[j] == neg[n - 2 - j];
        assert k[j] == (center - res) + (n - 2 - j) as real * (-res);
      } else {
        assert k[j] == pos[j - (n - 1)];
      }
    }
  }

  /** The evenly spaced values `center + (j - (n - 1)) * res`, `j < 2n - 1`,
      with `n - 1 < width / res`, increase, are symmetric about `center` and
      lie strictly within `width` of it. */
  lemma KernelOrderAndRange(k: seq<real>, center: real, width: real, res: real, q: real, n: int)
    requires res > 0.0 && n >= 1 && |k| == 2 * n - 1
    requires q * res == width && (n - 1) as real < q
    requires forall j :: 0 <= j < |k| ==> k[j] == center + (j - (n - 1)) as real * res
    ensures StrictlyIncreasing(k)
    ensures forall j :: 0 <= j < |k| ==> k[j] + k[|k| - 1 - j] == 2.0 * center
    ensures forall j :: 0 <= j < |k| ==> center - width < k[j] < center + width
  {
    forall i, j | 0 <= i < j < |k|
      ensures k[i] < k[j]
    {
      StepIncreasing(k[i], k[j], center, (i - (n - 1)) as real, (j - (n - 1)) as real, res);
    }
    forall j | 0 <= j < |k|
      ensures k[j] + k[|k| - 1 - j] == 2.0 * center
    {
      var a := (j - (n - 1)) as real;
      assert (|k| - 1 - j - (n - 1)) as real == -a;
      StepSymmetric(k[j], k[|k| - 1 - j], center, a, res);
    }
    MulStrict((n - 1) as real, q, res);
    forall j | 0 <= j < |k|
      ensures center - width < k[j] < center + width
    {
      StepWithin((j - (n - 1)) as real, (n - 1) as real, res, width);
    }
  }

  /** Points `center + a * res` with a positive step increase with `a`. */
  lemma StepIncreasing(x: real, y: real, center: real, a: real, b: real, res: real)
    requires res > 0.0 && a < b
    requires x == center + a * res && y == center + b * res
    ensures x < y
  {
    MulStrict(a, b, res);
  }

  /** Points `center + a * res` and `center - a * res` are symmetric about `center`. */
  lemma StepSymmetric(x: real, y: real, center: real, a: real, res: real)
    requires x == center + a * res && y == center + (-a) * res
    ensures x + y == 2.0 * center
  {
    NegTimes(a, res);
  }

  /** A multiple `a * res` with `|a| <= m` stays strictly within a bound
      that `m * res` is below. */
  lemma StepWithin(a: real, m: real, res: real, width: real)
    requires res > 0.0 && -m <= a <= m && m * res < width
    ensures -width < a * res < width
  {
    MulMono(a, m, res);
    MulMono(-m, a, res);
    assert (-m) * res == -(m * res);
  }

  /** `np.arange` is empty when `stop` is not beyond `start` in the
      direction of the step. */
  lemma ARangeEmpty(start: real, stop: real, step: real)
    requires (step > 0.0 && stop <= start) || (step < 0.0 && stop >= start)
    ensures ARange(start, stop, step) == Ok([])
  {
    var x := (stop - start) / step;
    assert x * step == stop - start;
    if x > 0.0 {
      if step > 0.0 {
        MulStrict(0.0, x, step);
      } else {
        MulStrict(0.0, x, -step);
      }
    }
    assert Ceil(x) <= 0;
    var r := ARange(start, stop, step).value;
    assert |r| == 0;
    assert r == [];
  }

  /** A non-positive width gives an empty kernel. */
  lemma KArrayEmpty(center: real, width: real, res: real)
    requires width <= 0.0 && res > 0.0
    ensures KArray(center, width, res) == Ok([])
  {
    ARangeEmpty(center - res, center - width, -res);
    ARangeEmpty(center, center + width, res);
    var none: seq<real> := [];
    assert Reverse(none) + none == [];
    assert KArray(center, width, res) == Ok(Reverse(none) + none);
  }
}
