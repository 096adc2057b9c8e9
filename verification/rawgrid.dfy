/**
  The raw spectral library as the archive writer sees it
  (`RawGridInterface` in Starfish/grid_tools/base_interfaces.py): a name, the
  parameter names, one list of discrete points per parameter axis, the native
  wavelength samples and the air/vacuum flag. Loading a spectrum is an oracle
  supplied to the writer (see module Archive).
 */
module RawGrid {
  import opened Errors
  import opened Seqs

  datatype RawGrid = RawGrid(
    name: string,
    paramNames: seq<string>,
    points: seq<seq<real>>,
    wl: seq<real>,
    air: bool)

  /** Every coordinate is one of its axis's points, pairing coordinates with
      axes the way `zip` does (stopping at the shorter of the two). */
  predicate OnAxes(parameters: seq<real>, points: seq<seq<real>>) {
    forall i :: 0 <= i < |parameters| && i < |points| ==> parameters[i] in points[i]
  }

  /** `check_params`: a length check against the parameter names, then each
      coordinate against its axis, reporting the first axis that fails. */
  method CheckParams(grid: RawGrid, parameters: seq<real>) returns (r: Result<bool>)
    ensures |parameters| != |grid.paramNames| ==>
      r == Err(LengthMismatch(|parameters|, |grid.paramNames|))
    ensures r.Ok? <==> |parameters| == |grid.paramNames| && OnAxes(parameters, grid.points)
    ensures r.Ok? ==> r.value
    ensures r.Err? && |parameters| == |grid.paramNames| ==>
      && r.error.NotInGrid?
      && r.error.axis < |parameters| && r.error.axis < |grid.points|
      && parameters[r.error.axis] !in grid.points[r.error.axis]
      && forall i :: 0 <= i < r.error.axis ==> parameters[i] in grid.points[i]
  {
    if |parameters| != |grid.paramNames| {
      return Err(LengthMismatch(|parameters|, |grid.paramNames|));
    }
    var n := if |parameters| < |grid.points| then |parameters| else |grid.points|;
    var i := 0;
    while i < n
      invariant 0 <= i <= n
      invariant forall j :: 0 <= j < i ==> parameters[j] in grid.points[j]
    {
      if parameters[i] !in grid.points[i] {
        return Err(NotInGrid(i));
      }
      i := i + 1;
    }
    return Ok(true);
  }

  /** The closed interval `[low, high]` as a mask. */
  function Between(low: real, high: real): real -> bool {
    v => low <= v <= high
  }

  /** The axis restriction of `HDF5Creator.__init__`: with no ranges the axes
      are kept; otherwise axis `i` keeps, in order, the points inside
      `ranges[i]`. One axis is produced per range, so a shorter `ranges` drops
      the trailing axes and a longer one indexes past the axes. */
  function RestrictAxes(points: seq<seq<real>>, ranges: Option<seq<(real, real)>>)
    : (r: Result<seq<seq<real>>>)
    ensures ranges.None? ==> r == Ok(points)
    ensures ranges.Some? ==> (r.Err? <==> |ranges.value| > |points|)
    ensures r.Err? ==> r.error == IndexOutOfRange
    ensures r.Ok? && ranges.Some? ==>
      && |r.value| == |ranges.value|
      && forall i :: 0 <= i < |r.value| ==>
           && r.value[i] == Filter(points[i], Between(ranges.value[i].0, ranges.value[i].1))
           && forall v :: v in r.value[i] <==>
                v in points[i] && ranges.value[i].0 <= v <= ranges.value[i].1
  {
    match ranges
    case None => Ok(points)
    case Some(rs) =>
      if |rs| > |points| then Err(IndexOutOfRange)
      else Ok(seq(|rs|, i requires 0 <= i < |rs| => Filter(points[i], Between(rs[i].0, rs[i].1))))
  }

  /** A restricted axis that was sorted stays sorted. */
  lemma RestrictedAxisSorted(points: seq<seq<real>>, ranges: seq<(real, real)>, i: nat)
    requires i < |ranges| <= |points|
    requires StrictlyIncreasing(points[i])
    ensures RestrictAxes(points, Some(ranges)).Ok?
    ensures StrictlyIncreasing(RestrictAxes(points, Some(ranges)).value[i])
  {
    FilterIncreasing(points[i], Between(ranges[i].0, ranges[i].1));
  }
}
