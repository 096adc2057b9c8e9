/**
  The parameter-box gate at the top of `lnprob` and `lnprob_old` in
  model.py: a parameter vector outside the box has log-probability minus
  infinity, and inside it the (linear-algebra) likelihood is evaluated. The
  likelihood itself is a parameter here.
 */
module Prior {
  import opened Errors
  import opened Seqs

  /** A log-probability: `-np.inf` or a finite value. */
  datatype LogProb = NegInf | Finite(x: real)

  /** A closed interval; a missing bound is unbounded on that side. */
  datatype Interval = Interval(lo: Option<real>, hi: Option<real>)

  predicate Contains(iv: Interval, x: real) {
    (iv.lo.Some? ==> iv.lo.value <= x) && (iv.hi.Some? ==> x <= iv.hi.value)
  }

  /** The admissible ranges: effective temperature 2300 K to 10000 K,
      `log g` from 0 to 6, non-negative `v sin i` and non-negative
      extinction `Av`. */
  const TempRange := Interval(Some(2300.0), Some(10000.0))
  const LoggRange := Interval(Some(0.0), Some(6.0))
  const VsiniRange := Interval(Some(0.0), None)
  const AvRange := Interval(Some(0.0), None)

  /** Inside the box of `lnprob_old`, which has no extinction. */
  predicate InStellarBox(temp: real, logg: real, vsini: real) {
    Contains(TempRange, temp) && Contains(LoggRange, logg) && Contains(VsiniRange, vsini)
  }

  /** Inside the box of `lnprob`. */
  predicate InBox(temp: real, logg: real, vsini: real, av: real) {
    InStellarBox(temp, logg, vsini) && Contains(AvRange, av)
  }

  /** `lnprob(p)`: `p` unpacks into exactly six values
      `(temp, logg, vsini, vz, Av, flux_factor)`; the vector is rejected with
      minus infinity exactly when it lies outside the box, and otherwise the
      likelihood of the whole vector is returned. */
  function LnProb(p: seq<real>, likelihood: seq<real> -> real): (r: Result<LogProb>)
    ensures r.Err? <==> |p| != 6
    ensures r.Err? ==> r.error == Unpack(|p|, 6)
    ensures r.Ok? ==> (r.value == NegInf <==> !InBox(p[0], p[1], p[2], p[4]))
    ensures r.Ok? && r.value.Finite? ==> r.value.x == likelihood(p)
  {
    if |p| != 6 then Err(Unpack(|p|, 6))
    else
      var temp, logg, vsini, av := p[0], p[1], p[2], p[4];
      if logg < 0.0 || logg > 6.0 || vsini < 0.0 || temp < 2300.0 || temp > 10000.0 || av < 0.0 then
        Ok(NegInf)
      else
        Ok(Finite(likelihood(p)))
  }

  /** `lnprob_old(p)` as written: inside the box it calls the six-parameter
      `model` with five arguments (no `Av`), which raises `TypeError`, so
      the function never returns a finite log-probability. */
  function LnProbOldAsWritten(p: seq<real>): (r: Result<LogProb>)
    ensures |p| < 5 ==> r == Err(Unpack(|p|, 5))
    ensures |p| >= 5 ==> (r == Ok(NegInf) <==> !InStellarBox(p[0], p[1], p[2]))
    ensures |p| >= 5 && InStellarBox(p[0], p[1], p[2]) ==> r == Err(WrongArity(5, 6))
    ensures r.Ok? ==> r.value == NegInf
  {
    var head := PySlice(p, 0, 5);
    if |head| != 5 then Err(Unpack(|head|, 5))
    else
      var temp, logg, vsini := head[0], head[1], head[2];
      if logg < 0.0 || logg > 6.0 || vsini < 0.0 || temp < 2300.0 || temp > 10000.0 then
        Ok(NegInf)
      else
        Err(WrongArity(5, 6))
  }

  /** As written and as intended agree outside the box and on too-short
      vectors; inside the box the intended version returns the likelihood
      where the written one raises. */
  lemma OldGateAsWrittenVsIntended(p: seq<real>, likelihood: seq<real> -> real)
    ensures var intended := LnProbOld(p, likelihood);
      && (intended.Err? || intended.value == NegInf ==> LnProbOldAsWritten(p) == intended)
      && (intended.Ok? && intended.value.Finite? ==> LnProbOldAsWritten(p) == Err(WrongArity(5, 6)))
  {
    if |p| >= 5 {
      assert PySlice(p, 0, 5) == p[0..5];
    }
  }

  /** A star inside the box: as written the call to `model` raises, as
      intended the likelihood is returned. */
  lemma OldModelCallRaises(likelihood: seq<real> -> real)
    ensures var p := [5800.0, 4.5, 0.0, 0.0, 1.0];
      && LnProbOldAsWritten(p) == Err(WrongArity(5, 6))
      && LnProbOld(p, likelihood) == Ok(Finite(likelihood(p)))
  {
    var p := [5800.0, 4.5, 0.0, 0.0, 1.0];
    assert PySlice(p, 0, 5) == p;
  }

  /** `lnprob_old(p)` with the evident intent of line 448, the likelihood
      of the vector inside the box: the first five values `p[:5]` unpack into
      `(temp, logg, vsini, vz, flux_factor)`, so `p` needs at least five
      (the rest are nuisance coefficients); the box is that of `lnprob`
      without the extinction test. */
  function LnProbOld(p: seq<real>, likelihood: seq<real> -> real): (r: Result<LogProb>)
    ensures r.Err? <==> |p| < 5
    ensures r.Err? ==> r.error == Unpack(|p|, 5)
    ensures r.Ok? ==> (r.value == NegInf <==> !InStellarBox(p[0], p[1], p[2]))
    ensures r.Ok? && r.value.Finite? ==> r.value.x == likelihood(p)
  {
    var head := PySlice(p, 0, 5);
    if |head| != 5 then Err(Unpack(|head|, 5))
    else
      var temp, logg, vsini := head[0], head[1], head[2];
      if logg < 0.0 || logg > 6.0 || vsini < 0.0 || temp < 2300.0 || temp > 10000.0 then
        Ok(NegInf)
      else
        Ok(Finite(likelihood(p)))
  }

  /** The two gates on the same star: `lnprob_old` accepts everything
      `lnprob` accepts, and they agree whenever the extinction is
      non-negative; with a negative extinction only `lnprob` rejects. The
      old vector has no `Av` slot and may carry any nuisance coefficients. */
  lemma GatesAgree(temp: real, logg: real, vsini: real, vz: real, av: real, ff: real,
                   coefs: seq<real>, likelihood: seq<real> -> real)
    ensures var nw := LnProb([temp, logg, vsini, vz, av, ff], likelihood).value;
      var was := LnProbOld([temp, logg, vsini, vz, ff] + coefs, likelihood).value;
      && (nw.Finite? ==> was.Finite?)
      && (av >= 0.0 ==> (nw.Finite? <==> was.Finite?))
      && (av < 0.0 ==> nw == NegInf)
  {
    var p := [temp, logg, vsini, vz, ff] + coefs;
    assert PySlice(p, 0, 5) == p[0..5];
    assert p[0] == temp && p[1] == logg && p[2] == vsini;
  }
}
