/**
  The radial-velocity shift `shift_vz` of model.py: a source wavelength
  multiplied by the Doppler factor of a velocity.
 */
module Shift {
  import opened Velocity
  import opened Reals

  /** `shift_vz(lam_source, vz)`: the observed wavelength, the source one
      times the Doppler factor `r` of `vz` (passed in, see
      `IsDopplerFactor`). Zero velocity leaves it alone; for a positive
      wavelength a negative velocity shortens it (blueshift) and a positive
      one lengthens it. */
  function ShiftVz(lamSource: real, vz: real, r: real): (lamObserve: real)
    requires IsDopplerFactor(r, vz)
    ensures vz == 0.0 ==> lamObserve == lamSource
    ensures lamSource > 0.0 ==> (vz < 0.0 <==> lamObserve < lamSource)
    ensures lamSource > 0.0 ==> (vz > 0.0 <==> lamObserve > lamSource)
  {
    ShiftFacts(lamSource, vz, r);
    r * lamSource
  }

  lemma ShiftFacts(lamSource: real, vz: real, r: real)
    requires IsDopplerFactor(r, vz)
    ensures vz == 0.0 ==> r * lamSource == lamSource
    ensures lamSource > 0.0 ==> (vz < 0.0 <==> r * lamSource < lamSource)
    ensures lamSource > 0.0 ==> (vz > 0.0 <==> r * lamSource > lamSource)
  {
    DopplerFactorSign(r, vz);
    if lamSource > 0.0 {
      if r < 1.0 {
        MulStrict(r, 1.0, lamSource);
      } else if r > 1.0 {
        MulStrict(1.0, r, lamSource);
      }
    }
  }

  /** The velocity between a wavelength and its shift by `vz` is `vz`. */
  lemma ShiftIsVelocity(lamSource: real, vz: real, r: real)
    requires lamSource != 0.0 && IsDopplerFactor(r, vz)
    ensures V(lamSource, ShiftVz(lamSource, vz, r)) == vz
  {
    VOfDopplerFactor(lamSource, r, vz);
    assert lamSource * r == r * lamSource;
  }

  /** Shifting by `vz` and then by `-vz` (whose factor is `1 / r`) gives the
      source wavelength back. */
  lemma ShiftRoundTrip(lamSource: real, vz: real, r: real)
    requires IsDopplerFactor(r, vz)
    ensures IsDopplerFactor(1.0 / r, -vz)
    ensures ShiftVz(ShiftVz(lamSource, vz, r), -vz, 1.0 / r) == lamSource
  {
    DopplerInverse(r, vz);
    assert r * (1.0 / r) == 1.0;
    assert (1.0 / r) * (r * lamSource) == (r * (1.0 / r)) * lamSource;
  }
}
