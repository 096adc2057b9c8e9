/**
  Wavelength grids evenly spaced in velocity (`create_wave_grid` in
  PHOENIX_tools.py): starting from `start`, each value is the previous one
  times the Doppler factor of `v`, until a value reaches `end`; that value is
  dropped. The working array has a fixed size, which caps the grid.
 */
module WaveGrid {
  import opened Seqs
  import opened Velocity

  /** `size`, the length of the working array. */
  const Cap: nat := 9000000

  /** `np.nonzero` as a mask. */
  function NonZero(): real -> bool {
    x => x != 0.0
  }

  /** The `k`-th working value, `start * r^k`. */
  function Geometric(start: real, r: real, k: nat): real {
    start * Pow(r, k)
  }

  lemma PowStep(r: real, k: nat)
    ensures Pow(r, k + 1) == Pow(r, k) * r
  {
  }

  /** The next working value is the current one times the factor. */
  lemma NextValue(start: real, r: real, k: nat)
    ensures Geometric(start, r, k) * r == Geometric(start, r, k + 1)
  {
    calc {
      Geometric(start, r, k) * r;
      (start * Pow(r, k)) * r;
      start * (Pow(r, k) * r);
      { PowStep(r, k); }
      start * Pow(r, k + 1);
    }
  }

  lemma {:induction false} PowPositive(r: real, k: nat)
    requires r > 0.0
    ensures Pow(r, k) > 0.0
  {
    if k > 0 {
      PowPositive(r, k - 1);
      PositiveProduct(r, Pow(r, k - 1));
    }
  }

  lemma PositiveProduct(a: real, b: real)
    requires a > 0.0 && b > 0.0
    ensures a * b > 0.0
  {
  }

  lemma NonzeroProduct(a: real, b: real)
    requires a != 0.0 && b > 0.0
    ensures a * b != 0.0
  {
    if a < 0.0 {
      PositiveProduct(-a, b);
      assert (-a) * b == -(a * b);
    } else {
      PositiveProduct(a, b);
    }
  }

  /** `create_wave_grid(v, start, end)`, with `r` the Doppler factor of `v`.
      The grid is the geometric sequence `start * r^k` cut before its first
      value at or above `end` (or at the cap); a zero start gives nothing,
      because the zero values are filtered out before the last one is
      dropped. */
  method CreateWaveGrid(v: real, start: real, end: real, r: real) returns (grid: seq<real>)
    requires IsDopplerFactor(r, v)
    ensures start >= end || start == 0.0 ==> grid == []
    ensures start < end && start != 0.0 ==> |grid| >= 1 && grid[0] == start
    ensures |grid| <= Cap - 1
    ensures forall k :: 0 <= k < |grid| ==> grid[k] == Geometric(start, r, k)
    ensures forall k :: 0 <= k < |grid| ==> grid[k] < end
    ensures start != 0.0 && |grid| < Cap - 1 ==> Geometric(start, r, |grid|) >= end
  {
    DopplerFactorSign(r, v);
    var lam := Working(start, end, r);
    grid := PySlice(Filter(lam, NonZero()), 0, -1);
    DropLast(lam, start, r);
  }

  /** The loop of `create_wave_grid`: the working values written before it
      stops, which is at the first value not below `end` or when the array is
      full. */
  method Working(start: real, end: real, r: real) returns (lam: seq<real>)
    ensures 1 <= |lam| <= Cap
    ensures forall k :: 0 <= k < |lam| ==> lam[k] == Geometric(start, r, k)
    ensures forall k :: 0 <= k < |lam| - 1 ==> lam[k] < end
    ensures |lam| < Cap ==> lam[|lam| - 1] >= end
  {
    lam := [start];
    var i := 0;
    while lam[i] < end && i < Cap - 1
      invariant 0 <= i <= Cap - 1 && |lam| == i + 1
      invariant forall k :: 0 <= k <= i ==> lam[k] == Geometric(start, r, k)
      invariant forall k :: 0 <= k < i ==> lam[k] < end
      decreases Cap - 1 - i
    {
      NextValue(start, r, i);
      lam := lam + [lam[i] * r];
      i := i + 1;
    }
  }

  /** Filtering out the zeros and dropping the last value of the working
      values `start * r^k` leaves all but the last one, or nothing for a zero
      start. */
  lemma DropLast(lam: seq<real>, start: real, r: real)
    requires |lam| > 0 && r > 0.0
    requires forall k :: 0 <= k < |lam| ==> lam[k] == Geometric(start, r, k)
    ensures start == 0.0 ==> PySlice(Filter(lam, NonZero()), 0, -1) == []
    ensures start != 0.0 ==> PySlice(Filter(lam, NonZero()), 0, -1) == lam[..|lam| - 1]
  {
    if start == 0.0 {
      assert forall k :: 0 <= k < |lam| ==> lam[k] == 0.0;
      FilterKeepsNone(lam, NonZero());
    } else {
      AllNonZero(lam, start, r);
      FilterKeepsAll(lam, NonZero());
      SliceDropsLast(lam);
    }
  }

  lemma AllNonZero(lam: seq<real>, start: real, r: real)
    requires start != 0.0 && r > 0.0
    requires forall k :: 0 <= k < |lam| ==> lam[k] == Geometric(start, r, k)
    ensures forall k :: 0 <= k < |lam| ==> NonZero()(lam[k])
  {
    forall k | 0 <= k < |lam|
      ensures NonZero()(lam[k])
    {
      PowPositive(r, k);
      NonzeroProduct(start, Pow(r, k));
    }
  }

  /** `s[:-1]` of a non-empty sequence drops its last element. */
  lemma SliceDropsLast(s: seq<real>)
    requires |s| > 0
    ensures PySlice(s, 0, -1) == s[..|s| - 1]
  {
    assert SliceBound(-1, |s|) == |s| - 1;
  }

  /** Consecutive grid values are `v` apart in velocity. */
  lemma EvenlySpaced(grid: seq<real>, start: real, r: real, v: real)
    requires start != 0.0 && IsDopplerFactor(r, v)
    requires forall k :: 0 <= k < |grid| ==> grid[k] == Geometric(start, r, k)
    ensures forall k :: 0 <= k < |grid| - 1 ==> grid[k] != 0.0 && V(grid[k], grid[k + 1]) == v
  {
    forall k | 0 <= k < |grid| - 1
      ensures grid[k] != 0.0 && V(grid[k], grid[k + 1]) == v
    {
      SpacedAt(start, r, v, k);
    }
  }

  /** Working value `k` is non-zero and the next one is `v` away from it. */
  lemma SpacedAt(start: real, r: real, v: real, k: nat)
    requires start != 0.0 && IsDopplerFactor(r, v)
    ensures Geometric(start, r, k) != 0.0
    ensures V(Geometric(start, r, k), Geometric(start, r, k + 1)) == v
  {
    var g := Geometric(start, r, k);
    assert g != 0.0 by {
      DopplerFactorSign(r, v);
      PowPositive(r, k);
      NonzeroProduct(start, Pow(r, k));
    }
    assert g * r == Geometric(start, r, k + 1) by {
      NextValue(start, r, k);
    }
    VOfDopplerFactor(g, r, v);
  }

  lemma {:induction false} PowIncreasing(r: real, i: nat, j: nat)
    requires r > 1.0 && i < j
    ensures Pow(r, i) < Pow(r, j)
  {
    var p := Pow(r, j - 1);
    PowPositive(r, j - 1);
    PowStep(r, j - 1);
    PositiveProduct(p, r - 1.0);
    assert p * (r - 1.0) == p * r - p;
    assert p < Pow(r, j);
    if i < j - 1 {
      PowIncreasing(r, i, j - 1);
    }
  }

  /** For a positive start and a positive velocity the grid increases. */
  lemma GridIncreasing(grid: seq<real>, start: real, r: real, v: real)
    requires start > 0.0 && v > 0.0 && IsDopplerFactor(r, v)
    requires forall k :: 0 <= k < |grid| ==> grid[k] == Geometric(start, r, k)
    ensures StrictlyIncreasing(grid)
  {
    DopplerFactorSign(r, v);
    forall i, j | 0 <= i < j < |grid|
      ensures grid[i] < grid[j]
    {
      PowIncreasing(r, i, j);
      PositiveProduct(start, Pow(r, j) - Pow(r, i));
    }
  }
}
