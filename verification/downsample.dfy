/**
  Rebinning a model spectrum onto a coarser instrument grid (`downsample` in
  model.py). Both grids get bin edges half-way between samples; the loop walks
  the model edges and, each time one passes the next instrument edge, closes
  an instrument bin with the weighted average of the model fluxes it covers:
  the first and last model samples are weighted by the fraction of their bin
  that overlaps, the ones in between by 1. The weights are cut from a
  ten-element array of ones.
 */
module Downsample {
  import opened Errors
  import opened Seqs
  import opened Reals

  /** The bin edges of a grid: midpoints between neighbours, and the outer
      edges half a spacing beyond the first and last samples. */
  function Edges(w: seq<real>): (e: seq<real>)
    requires |w| >= 2
    ensures |e| == |w| + 1
  {
    seq(|w| + 1, k requires 0 <= k <= |w| =>
      if k == 0 then w[0] - (w[1] - w[0]) / 2.0
      else if k == |w| then w[|w| - 1] + (w[|w| - 1] - w[|w| - 2]) / 2.0
      else w[k - 1] + (w[k] - w[k - 1]) / 2.0)
  }

  /** The edges bracket the samples: every sample lies strictly inside its
      own bin, interior edges are midpoints, the first and last samples are
      the centres of their bins, and the edges increase with the samples. */
  lemma EdgesBracket(w: seq<real>)
    requires |w| >= 2 && StrictlyIncreasing(w)
    ensures var e := Edges(w);
      && (forall k :: 0 <= k < |w| ==> e[k] < w[k] < e[k + 1])
      && (forall k :: 0 < k < |w| ==> e[k] == (w[k - 1] + w[k]) / 2.0)
      && e[0] + e[1] == 2.0 * w[0]
      && e[|w| - 1] + e[|w|] == 2.0 * w[|w| - 1]
      && StrictlyIncreasing(e)
  {
    var e := Edges(w);
    forall k | 0 <= k < |w|
      ensures e[k] < w[k] < e[k + 1]
    {
      EdgeAround(w, k);
    }
    EdgesIncreasing(w);
  }

  /** Sample `k` lies strictly between edges `k` and `k + 1`. */
  lemma EdgeAround(w: seq<real>, k: nat)
    requires |w| >= 2 && StrictlyIncreasing(w) && k < |w|
    ensures Edges(w)[k] < w[k] < Edges(w)[k + 1]
  {
    var e := Edges(w);
    var n := |w|;
    if k > 0 {
      assert w[k - 1] < w[k];
      assert e[k] == w[k - 1] + (w[k] - w[k - 1]) / 2.0;
    } else {
      assert w[0] < w[1];
      assert e[0] == w[0] - (w[1] - w[0]) / 2.0;
    }
    if k < n - 1 {
      assert w[k] < w[k + 1];
      assert e[k + 1] == w[k] + (w[k + 1] - w[k]) / 2.0;
    } else {
      assert w[n - 2] < w[n - 1];
      assert e[n] == w[n - 1] + (w[n - 1] - w[n - 2]) / 2.0;
    }
  }

  /** The edges increase strictly: two edges are separated by the samples
      between them. */
  lemma EdgesIncreasing(w: seq<real>)
    requires |w| >= 2 && StrictlyIncreasing(w)
    ensures StrictlyIncreasing(Edges(w))
  {
    var e := Edges(w);
    forall i, j | 0 <= i < j < |e|
      ensures e[i] < e[j]
    {
      EdgePair(w, i, j);
    }
  }

  lemma EdgePair(w: seq<real>, i: nat, j: nat)
    requires |w| >= 2 && StrictlyIncreasing(w) && i < j <= |w|
    ensures Edges(w)[i] < Edges(w)[j]
  {
    EdgeAround(w, i);
    EdgeAround(w, j - 1);
    if i < j - 1 {
      assert w[i] < w[j - 1];
    }
  }

  /** The first index at which `s` exceeds `x` (`np.argwhere(x < s)[0][0]`),
      or nothing when no element does. */
  function FirstAbove(s: seq<real>, x: real): (r: Option<nat>)
    ensures r.None? <==> forall k :: 0 <= k < |s| ==> s[k] <= x
    ensures r.Some? ==> r.value < |s| && s[r.value] > x
    ensures r.Some? ==> forall k :: 0 <= k < r.value ==> s[k] <= x
  {
    if |s| == 0 then None
    else if s[0] > x then Some(0)
    else
      match FirstAbove(s[1..], x)
      case None => None
      case Some(k) => Some(k + 1)
  }

  /** `ones = np.ones((10,))`. */
  const Ones: seq<real> := [1.0, 1.0, 1.0, 1.0, 1.0, 1.0, 1.0, 1.0, 1.0, 1.0]

  function Sum(w: seq<real>): real {
    if |w| == 0 then 0.0 else w[0] + Sum(w[1..])
  }

  /** `sum(a * w)`. */
  function Dot(a: seq<real>, w: seq<real>): real
    requires |a| == |w|
  {
    if |a| == 0 then 0.0 else a[0] * w[0] + Dot(a[1..], w[1..])
  }

  /** `np.average(a, weights=w)`: fails when the lengths differ or the
      weights sum to zero; otherwise the value whose product with the total
      weight is the weighted sum. */
  function Average(a: seq<real>, w: seq<real>): (r: Result<real>)
    ensures r.Err? <==> |a| != |w| || Sum(w) == 0.0
    ensures |a| != |w| ==> r == Err(WeightsMismatch(|a|))
    ensures |a| == |w| && Sum(w) == 0.0 ==> r == Err(DivisionByZero)
    ensures r.Ok? ==> r.value * Sum(w) == Dot(a, w)
  {
    if |a| != |w| then Err(WeightsMismatch(|a|))
    else if Sum(w) == 0.0 then Err(DivisionByZero)
    else Ok(Dot(a, w) / Sum(w))
  }

  lemma {:induction false} DotConstant(a: seq<real>, w: seq<real>, c: real)
    requires |a| == |w|
    requires forall k :: 0 <= k < |a| ==> a[k] == c
    ensures Dot(a, w) == c * Sum(w)
  {
    if |a| > 0 {
      DotConstant(a[1..], w[1..], c);
      Distrib(c, w[0], Sum(w[1..]), Sum(w));
    } else {
      TimesZero(c, Sum(w));
    }
  }

  /** With non-negative weights the weighted sum is monotone in the values. */
  lemma {:induction false} DotMono(a: seq<real>, b: seq<real>, w: seq<real>)
    requires |a| == |b| == |w|
    requires forall k :: 0 <= k < |w| ==> w[k] >= 0.0
    requires forall k :: 0 <= k < |a| ==> a[k] <= b[k]
    ensures Dot(a, w) <= Dot(b, w)
  {
    if |a| > 0 {
      DotMono(a[1..], b[1..], w[1..]);
      MulMono(a[0], b[0], w[0]);
    }
  }

  /** Values between `lo` and `hi` give a weighted sum between `lo` and `hi`
      times the total weight. */
  lemma DotBounds(a: seq<real>, w: seq<real>, lo: real, hi: real)
    requires |a| == |w|
    requires forall k :: 0 <= k < |w| ==> w[k] >= 0.0
    requires forall k :: 0 <= k < |a| ==> lo <= a[k] <= hi
    ensures lo * Sum(w) <= Dot(a, w) <= hi * Sum(w)
  {
    var los := seq(|a|, _ => lo);
    var his := seq(|a|, _ => hi);
    DotMono(los, a, w);
    DotMono(a, his, w);
    DotConstant(los, w, lo);
    DotConstant(his, w, hi);
  }

  /** The average of a constant is that constant. */
  lemma AverageOfConstant(a: seq<real>, w: seq<real>, c: real)
    requires |a| == |w| && Sum(w) != 0.0
    requires forall k :: 0 <= k < |a| ==> a[k] == c
    ensures Average(a, w) == Ok(c)
  {
    var s, d := Sum(w), Dot(a, w);
    DotConstant(a, w, c);
    assert d == c * s;
    var v := Average(a, w).value;
    assert v * s == d;
    CancelFactor(v, c, s);
  }

  /** With non-negative weights the average lies between the smallest and
      the largest value averaged. */
  lemma AverageWithin(a: seq<real>, w: seq<real>, lo: real, hi: real)
    requires |a| == |w| && Sum(w) > 0.0
    requires forall k :: 0 <= k < |w| ==> w[k] >= 0.0
    requires forall k :: 0 <= k < |a| ==> lo <= a[k] <= hi
    ensures Average(a, w).Ok?
    ensures lo <= Average(a, w).value <= hi
  {
    DotBounds(a, w, lo, hi);
    var v := Average(a, w).value;
    if v < lo {
      MulStrict(v, lo, Sum(w));
    }
    if v > hi {
      MulStrict(hi, v, Sum(w));
    }
  }

  /** `ones[:count]`. */
  function OnesPrefix(count: int): (w: seq<real>)
    ensures |w| == if count > 10 then 10 else if count >= 0 then count else if count > -10 then 10 + count else 0
    ensures forall k :: 0 <= k < |w| ==> w[k] == 1.0
  {
    PySlice(Ones, 0, count)
  }

  /** The weights of one bin: `ones[:count]` with the first entry replaced
      by the left fraction and then the last by the right one. The slice
      follows Python's rules, so it has at most ten entries, and an empty
      slice fails at the first assignment. */
  function BinWeights(count: int, left: real, right: real): (r: Result<seq<real>>)
    ensures r.Err? <==> count == 0 || count <= -10
    ensures r.Err? ==> r.error == IndexOutOfRange
    ensures r.Ok? ==> |r.value| == if count > 10 then 10 else if count > 0 then count else 10 + count
    ensures r.Ok? ==> r.value[|r.value| - 1] == right
    ensures r.Ok? && |r.value| >= 2 ==> r.value[0] == left
    ensures r.Ok? ==> forall k :: 0 < k < |r.value| - 1 ==> r.value[k] == 1.0
  {
    if |OnesPrefix(count)| == 0 then Err(IndexOutOfRange)
    else Ok(OnesPrefix(count)[0 := left][|OnesPrefix(count)| - 1 := right])
  }

  /** One instrument bin as the loop closes it: the model slice
      `f_m[first:last]`, its two overlap fractions, its weights and the
      averaged flux. */
  datatype Bin = Bin(first: int, last: int, left: real, right: real, weights: seq<real>, value: real)

  /** The lower neighbour of model edge `i`, read with Python indexing (so
      for `i == 0` it is the last edge). */
  function Below(pedges: seq<real>, i: int): real
    requires |pedges| >= 1 && 0 <= i < |pedges|
  {
    PyIndex(pedges, i - 1)
  }

  /** Closing a bin when model edge `i` has passed instrument edge `edge`:
      the right fraction is the part of model bin `i - 1` below `edge`; the
      weights and the flux slice must have the same length, so a bin over
      more than ten model samples fails; and the weights must not sum to
      zero. */
  function FillBin(fM: seq<real>, pedges: seq<real>, edge: real, iStart: int, i: int, left: real)
    : (r: Result<Bin>)
    requires |pedges| >= 2 && StrictlyIncreasing(pedges) && 0 <= i < |pedges|
    ensures Below(pedges, i) != pedges[i]
    ensures r.Ok? ==> r.value.first == iStart && r.value.last == i && r.value.left == left
    ensures r.Ok? ==> r.value.right == BelowFraction(edge, Below(pedges, i), pedges[i])
    ensures r.Ok? ==> BinWeights(i - iStart, left, r.value.right) == Ok(r.value.weights)
    ensures r.Ok? ==> Average(PySlice(fM, iStart, i), r.value.weights) == Ok(r.value.value)
    ensures 0 <= iStart && i - iStart > 10 && i <= |fM| ==> r == Err(WeightsMismatch(i - iStart))
  {
    var lower := Below(pedges, i);
    BelowDiffers(pedges, i);
    var right := BelowFraction(edge, lower, pedges[i]);
    match BinWeights(i - iStart, left, right)
    case Err(e) => Err(e)
    case Ok(weights) =>
      match Average(PySlice(fM, iStart, i), weights)
      case Err(e) => Err(e)
      case Ok(value) => Ok(Bin(iStart, i, left, right, weights, value))
  }

  lemma BelowDiffers(pedges: seq<real>, i: int)
    requires |pedges| >= 2 && StrictlyIncreasing(pedges) && 0 <= i < |pedges|
    ensures Below(pedges, i) < pedges[i] || Below(pedges, i) > pedges[i]
  {
    if i == 0 {
      assert pedges[0] < pedges[|pedges| - 1];
    }
  }

  /** The part of the model bin `[lower, upper]` that lies below `edge`,
      as a fraction of its width. */
  function BelowFraction(edge: real, lower: real, upper: real): (f: real)
    requires lower != upper
    ensures f * (upper - lower) == edge - lower
    ensures lower <= edge < upper ==> 0.0 <= f < 1.0
  {
    FractionBounds(edge, lower, upper);
    (edge - lower) / (upper - lower)
  }

  /** The part of the model bin `[lower, upper]` that lies above `edge`. */
  function AboveFraction(edge: real, lower: real, upper: real): (f: real)
    requires lower != upper
    ensures f * (upper - lower) == upper - edge
    ensures lower <= edge < upper ==> 0.0 < f <= 1.0
  {
    FractionBounds(edge, lower, upper);
    (upper - edge) / (upper - lower)
  }

  lemma FractionBounds(edge: real, lower: real, upper: real)
    requires lower != upper
    ensures ((edge - lower) / (upper - lower)) * (upper - lower) == edge - lower
    ensures ((upper - edge) / (upper - lower)) * (upper - lower) == upper - edge
    ensures lower <= edge < upper ==> 0.0 <= (edge - lower) / (upper - lower) < 1.0
    ensures lower <= edge < upper ==> 0.0 < (upper - edge) / (upper - lower) <= 1.0
  {
    DivTimes(edge - lower, upper - lower);
    DivTimes(upper - edge, upper - lower);
    if lower <= edge < upper {
      UnitQuotient(edge - lower, upper - lower);
      UnitQuotient(upper - edge, upper - lower);
    }
  }

  /** The two parts of a model bin add up to the whole: the left weight of
      the next instrument bin, `1 - right_weight`, is the part of the shared
      model bin above the edge. */
  lemma FractionsComplement(edge: real, lower: real, upper: real)
    requires lower != upper
    ensures AboveFraction(edge, lower, upper) == 1.0 - BelowFraction(edge, lower, upper)
  {
    var a := AboveFraction(edge, lower, upper);
    var b := BelowFraction(edge, lower, upper);
    PartsOfWhole(a, b, upper - lower, upper - edge, edge - lower);
  }

  /** What the loop needs before it starts: both grids' edges, the first
      model edge past the first instrument edge (one above the first slice
      start `i_start`) and the left fraction of the first bin. */
  datatype Setup = Setup(edges: seq<real>, pedges: seq<real>, above: nat, left0: real)

  /** The set-up part of `downsample`. Each grid needs two samples (the edge
      computation reads `difs[0]`), and some model edge must lie past the
      first instrument edge (`argwhere(...)[0]`); otherwise indexing fails.
      The first bin's left fraction is the part of model bin `i_start` above
      the first instrument edge. */
  function Prepare(wM: seq<real>, wT: seq<real>): (r: Result<Setup>)
    requires StrictlyIncreasing(wM)
    ensures r.Err? <==>
      |wT| < 2 || |wM| < 2 || FirstAbove(Edges(wM), Edges(wT)[0]).None?
    ensures r.Err? ==> r.error == IndexOutOfRange
    ensures r.Ok? ==> Ready(r.value, wM, wT)
    ensures r.Ok? ==> r.value.edges == Edges(wT) && r.value.pedges == Edges(wM)
    ensures r.Ok? ==> 0 <= r.value.above < |r.value.pedges|
    ensures r.Ok? ==> r.value.pedges[r.value.above] > r.value.edges[0]
    ensures r.Ok? ==> forall k :: 0 <= k < r.value.above ==> r.value.pedges[k] <= r.value.edges[0]
    ensures r.Ok? ==>
      r.value.left0 == AboveFraction(r.value.edges[0], Below(r.value.pedges, r.value.above),
                                     r.value.pedges[r.value.above])
  {
    if |wT| < 2 || |wM| < 2 then Err(IndexOutOfRange)
    else
      var edges := Edges(wT);
      var pedges := Edges(wM);
      EdgesIncreasing(wM);
      match FirstAbove(pedges, edges[0])
      case None => Err(IndexOutOfRange)
      case Some(f) =>
        var lower := Below(pedges, f);
        BelowDiffers(pedges, f);
        var left0 := AboveFraction(edges[0], lower, pedges[f]);
        Ok(Setup(edges, pedges, f, left0))
  }

  /** The shape facts about a set-up that the loop relies on. */
  predicate Ready(s: Setup, wM: seq<real>, wT: seq<real>) {
    && |wT| >= 2 && |s.edges| == |wT| + 1
    && |s.pedges| == |wM| + 1 && |s.pedges| >= 2 && StrictlyIncreasing(s.pedges)
  }

  /** Where the scan for bin `k` begins: right after the model edge that
      closed the previous bin. */
  function ScanFrom(prev: Option<Bin>): int {
    if prev.None? then 0 else prev.value.last + 1
  }

  /** The slice start of the next bin: one below the edge that closed the
      previous bin. */
  function StartAfter(s: Setup, prev: Option<Bin>): int {
    if prev.None? then s.above - 1 else prev.value.last - 1
  }

  /** The left fraction of the next bin: what the previous bin's right
      fraction leaves. */
  function LeftAfter(s: Setup, prev: Option<Bin>): real {
    if prev.None? then s.left0 else 1.0 - prev.value.right
  }

  function Previous(bins: seq<Bin>, k: nat): Option<Bin>
    requires k <= |bins|
  {
    if k == 0 then None else Some(bins[k - 1])
  }

  /** Bin `k` (closing at instrument edge `k + 1`) was closed by the first
      model edge past that instrument edge in the scan after the previous
      bin, and holds what `FillBin` makes of it. */
  predicate BinClosed(s: Setup, fM: seq<real>, k: nat, prev: Option<Bin>, b: Bin)
    requires |s.pedges| >= 2 && StrictlyIncreasing(s.pedges) && k + 1 < |s.edges|
  {
    && 0 <= ScanFrom(prev) <= b.last < |s.pedges|
    && s.pedges[b.last] > s.edges[k + 1]
    && (forall j :: ScanFrom(prev) <= j < b.last ==> s.pedges[j] <= s.edges[k + 1])
    && FillBin(fM, s.pedges, s.edges[k + 1], StartAfter(s, prev), b.last, LeftAfter(s, prev)) == Ok(b)
  }

  /** The bins closed so far, in order, each as `BinClosed` describes. */
  predicate Traced(s: Setup, fM: seq<real>, bins: seq<Bin>)
    requires |s.pedges| >= 2 && StrictlyIncreasing(s.pedges)
    decreases |bins|
  {
    && |bins| < |s.edges|
    && (|bins| > 0 ==>
          && Traced(s, fM, bins[..|bins| - 1])
          && BinClosed(s, fM, |bins| - 1, Previous(bins, |bins| - 1), bins[|bins| - 1]))
  }

  /** Every bin of a trace is closed as `BinClosed` describes. */
  lemma TracedAll(s: Setup, fM: seq<real>, bins: seq<Bin>)
    requires |s.pedges| >= 2 && StrictlyIncreasing(s.pedges)
    requires Traced(s, fM, bins)
    ensures forall k :: 0 <= k < |bins| ==> k + 1 < |s.edges| && BinClosed(s, fM, k, Previous(bins, k), bins[k])
  {
    forall k | 0 <= k < |bins|
      ensures k + 1 < |s.edges| && BinClosed(s, fM, k, Previous(bins, k), bins[k])
    {
      TracedAt(s, fM, bins, k);
    }
  }

  lemma {:induction false} TracedAt(s: Setup, fM: seq<real>, bins: seq<Bin>, k: nat)
    requires |s.pedges| >= 2 && StrictlyIncreasing(s.pedges)
    requires Traced(s, fM, bins) && k < |bins|
    ensures k + 1 < |s.edges| && BinClosed(s, fM, k, Previous(bins, k), bins[k])
    decreases |bins|
  {
    var init := bins[..|bins| - 1];
    TracedSplit(s, fM, bins);
    if k < |init| {
      TracedAt(s, fM, init, k);
      assert Previous(init, k) == Previous(bins, k) && init[k] == bins[k];
    }
  }

  /** A trace is a shorter trace followed by one more closed bin. */
  lemma TracedSplit(s: Setup, fM: seq<real>, bins: seq<Bin>)
    requires |s.pedges| >= 2 && StrictlyIncreasing(s.pedges)
    requires Traced(s, fM, bins) && |bins| > 0
    ensures |bins| < |s.edges| && Traced(s, fM, bins[..|bins| - 1])
    ensures forall k :: k == |bins| - 1 ==> BinClosed(s, fM, k, Previous(bins, k), bins[k])
  {
  }

  /** No model edge scanned since the last closed bin, before `i`, is past
      the next instrument edge. */
  predicate Pending(s: Setup, bins: seq<Bin>, i: int)
    requires |bins| + 1 < |s.edges|
  {
    forall j :: ScanFrom(Previous(bins, |bins|)) <= j < i && 0 <= j < |s.pedges| ==>
      s.pedges[j] <= s.edges[|bins| + 1]
  }

  /** `downsample(w_m, f_m, w_TRES)`. Besides the fluxes it returns the bins
      it closed, traced as `Traced` describes. The result has one flux per
      instrument sample: bin `k` holds its average and the bins never closed
      stay 0; when the model edges run out before the instrument bins do, no
      model edge after the last closed bin is past the next instrument edge.
      On failure the bins closed before it are returned and the failure is
      that of closing the next one. */
  method Downsample(wM: seq<real>, fM: seq<real>, wT: seq<real>)
      returns (r: Result<seq<real>>, bins: seq<Bin>)
    requires StrictlyIncreasing(wM)
    ensures Prepare(wM, wT).Err? ==> r == Err(Prepare(wM, wT).error) && bins == []
    ensures Prepare(wM, wT).Ok? ==> Traced(Prepare(wM, wT).value, fM, bins) && |bins| <= |wT|
    ensures r.Ok? ==> Prepare(wM, wT).Ok? && |r.value| == |wT|
    ensures r.Ok? ==> forall k :: 0 <= k < |bins| ==> r.value[k] == bins[k].value
    ensures r.Ok? ==> forall k :: |bins| <= k < |wT| ==> r.value[k] == 0.0
    ensures r.Ok? && |bins| < |wT| ==> Pending(Prepare(wM, wT).value, bins, |wM| + 1)
    ensures r.Err? && Prepare(wM, wT).Ok? ==>
      |bins| < |wT| && Failed(Prepare(wM, wT).value, fM, bins, r.error)
  {
    var setup := Prepare(wM, wT);
    if setup.Err? {
      return Err(setup.error), [];
    }
    r, bins := Scan(setup.value, fM, |wT|);
  }

  /** The loop of `downsample` over the model edges, after the set-up. */
  method Scan(s: Setup, fM: seq<real>, t: nat) returns (r: Result<seq<real>>, bins: seq<Bin>)
    requires |s.pedges| >= 2 && StrictlyIncreasing(s.pedges) && |s.edges| == t + 1 && t >= 1
    ensures Traced(s, fM, bins) && |bins| <= t
    ensures r.Ok? ==> r.value == Outputs(bins, t)
    ensures r.Ok? && |bins| < t ==> Pending(s, bins, |s.pedges|)
    ensures r.Err? ==> |bins| < t && Failed(s, fM, bins, r.error)
  {
    bins := [];
    var out := seq(t, _ => 0.0);
    assert out == Outputs(bins, t);
    var iStart := s.above - 1;
    var left := s.left0;
    var i := 0;
    while i < |s.pedges|
      invariant 0 <= i <= |s.pedges|
      invariant Traced(s, fM, bins) && |bins| < t
      invariant out == Outputs(bins, t)
      invariant iStart == StartAfter(s, Previous(bins, |bins|))
      invariant left == LeftAfter(s, Previous(bins, |bins|))
      invariant ScanFrom(Previous(bins, |bins|)) <= i
      invariant Pending(s, bins, i)
    {
      if s.pedges[i] > s.edges[|bins| + 1] {
        var b := FillBin(fM, s.pedges, s.edges[|bins| + 1], iStart, i, left);
        if b.Err? {
          FailedAt(s, fM, bins, i, b.error);
          return Err(b.error), bins;
        }
        var bin := b.value;
        Close(s, fM, bins, i, bin);
        OutputsStep(bins, bin, t);
        out := out[|bins| := bin.value];
        bins := bins + [bin];
        iStart := i - 1;
        left := 1.0 - bin.right;
        if |bins| >= t {
          break;
        }
      } else {
        PendingStep(s, bins, i);
      }
      i := i + 1;
    }
    r := Ok(out);
  }

  /** The output fluxes once `bins` are closed: their values, then zeros
      (`np.zeros_like(w_TRES)` filled from the front). */
  function Outputs(bins: seq<Bin>, t: nat): (out: seq<real>)
    requires |bins| <= t
    ensures |out| == t
    ensures forall k :: 0 <= k < |bins| ==> out[k] == bins[k].value
    ensures forall k :: |bins| <= k < t ==> out[k] == 0.0
  {
    seq(t, k requires 0 <= k < t => if k < |bins| then bins[k].value else 0.0)
  }

  /** Storing the flux of the next bin extends the outputs by that bin. */
  lemma OutputsStep(bins: seq<Bin>, bin: Bin, t: nat)
    requires |bins| < t
    ensures Outputs(bins, t)[|bins| := bin.value] == Outputs(bins + [bin], t)
  {
  }

  lemma PendingStep(s: Setup, bins: seq<Bin>, i: int)
    requires |bins| + 1 < |s.edges| && 0 <= i < |s.pedges|
    requires Pending(s, bins, i) && s.pedges[i] <= s.edges[|bins| + 1]
    ensures Pending(s, bins, i + 1)
  {
  }

  lemma FailedAt(s: Setup, fM: seq<real>, bins: seq<Bin>, i: int, e: Error)
    requires |s.pedges| >= 2 && StrictlyIncreasing(s.pedges) && |bins| + 1 < |s.edges|
    requires 0 <= ScanFrom(Previous(bins, |bins|)) <= i < |s.pedges|
    requires Pending(s, bins, i) && s.pedges[i] > s.edges[|bins| + 1]
    requires FillBin(fM, s.pedges, s.edges[|bins| + 1], StartAfter(s, Previous(bins, |bins|)), i,
                     LeftAfter(s, Previous(bins, |bins|))) == Err(e)
    ensures Failed(s, fM, bins, e)
  {
  }

  /** The failure of closing the next bin: some model edge `i` after the
      last closed bin is the first past the next instrument edge, and
      `FillBin` fails there with `e`. */
  predicate Failed(s: Setup, fM: seq<real>, bins: seq<Bin>, e: Error)
    requires |s.pedges| >= 2 && StrictlyIncreasing(s.pedges) && |bins| + 1 < |s.edges|
  {
    exists i :: ScanFrom(Previous(bins, |bins|)) <= i < |s.pedges| && 0 <= i &&
      Pending(s, bins, i) && s.pedges[i] > s.edges[|bins| + 1] &&
      FillBin(fM, s.pedges, s.edges[|bins| + 1], StartAfter(s, Previous(bins, |bins|)), i,
              LeftAfter(s, Previous(bins, |bins|))) == Err(e)
  }

  /** Closing the next bin at model edge `i` keeps the trace. */
  lemma Close(s: Setup, fM: seq<real>, bins: seq<Bin>, i: int, bin: Bin)
    requires |s.pedges| >= 2 && StrictlyIncreasing(s.pedges)
    requires Traced(s, fM, bins) && |bins| + 1 < |s.edges|
    requires 0 <= ScanFrom(Previous(bins, |bins|)) <= i < |s.pedges|
    requires Pending(s, bins, i) && s.pedges[i] > s.edges[|bins| + 1]
    requires FillBin(fM, s.pedges, s.edges[|bins| + 1], StartAfter(s, Previous(bins, |bins|)), i,
                     LeftAfter(s, Previous(bins, |bins|))) == Ok(bin)
    ensures bin.last == i
    ensures Previous(bins + [bin], |bins| + 1) == Some(bin)
    ensures Traced(s, fM, bins + [bin])
    ensures |bins| + 2 < |s.edges| ==> Pending(s, bins + [bin], i + 1)
  {
    var next := bins + [bin];
    assert next[..|next| - 1] == bins;
    assert Previous(next, |bins|) == Previous(bins, |bins|);
  }

  /** What a trace says about each bin: the bins close at increasing model
      edges; each slice starts one below the edge that closed the previous
      bin (the first one below the first model edge past the first
      instrument edge); each left fraction is one minus the previous bin's
      right fraction, which is the part of the shared model bin above the
      instrument edge the previous bin closed at; the weights are the left
      fraction, then ones, then the right fraction, at most ten of them, as
      many as the model slice has samples; and the flux is their average. */
  lemma BinsChained(s: Setup, fM: seq<real>, bins: seq<Bin>)
    requires |s.pedges| >= 2 && StrictlyIncreasing(s.pedges)
    requires Traced(s, fM, bins)
    ensures forall k :: 0 <= k < |bins| ==> BinFacts(s, fM, bins, k)
  {
    TracedAll(s, fM, bins);
    forall k | 0 <= k < |bins|
      ensures BinFacts(s, fM, bins, k)
    {
      BinAt(s, fM, bins, k);
    }
  }

  /** The facts about bin `k` of a trace listed above. */
  predicate BinFacts(s: Setup, fM: seq<real>, bins: seq<Bin>, k: int)
    requires 0 <= k < |bins|
  {
    var b := bins[k];
    && 0 <= b.last < |s.pedges|
    && k + 1 < |s.edges|
    && WeightsShaped(b)
    && Average(PySlice(fM, b.first, b.last), b.weights) == Ok(b.value)
    && (0 <= b.first && b.last <= |fM| ==> b.last - b.first <= 10)
    && (k == 0 ==> b.first == s.above - 1 && b.left == s.left0)
    && (k > 0 ==>
          var p := bins[k - 1];
          && 0 <= p.last < b.last
          && b.first == p.last - 1
          && b.left == 1.0 - p.right
          && Below(s.pedges, p.last) != s.pedges[p.last]
          && b.left == AboveFraction(s.edges[k], Below(s.pedges, p.last), s.pedges[p.last]))
  }

  /** The weights of a bin: the left fraction, then ones, then the right
      fraction, at most ten of them. */
  predicate WeightsShaped(b: Bin) {
    && 1 <= |b.weights| <= 10
    && b.weights[|b.weights| - 1] == b.right
    && (|b.weights| >= 2 ==> b.weights[0] == b.left)
    && (forall j :: 0 < j < |b.weights| - 1 ==> b.weights[j] == 1.0)
  }

  lemma BinAt(s: Setup, fM: seq<real>, bins: seq<Bin>, k: nat)
    requires |s.pedges| >= 2 && StrictlyIncreasing(s.pedges)
    requires k < |bins| && k + 1 < |s.edges| && BinClosed(s, fM, k, Previous(bins, k), bins[k])
    requires k > 0 ==> BinClosed(s, fM, k - 1, Previous(bins, k - 1), bins[k - 1])
    ensures BinFacts(s, fM, bins, k)
  {
    if k > 0 {
      var p := bins[k - 1];
      BelowDiffers(s.pedges, p.last);
      FractionsComplement(s.edges[k], Below(s.pedges, p.last), s.pedges[p.last]);
    }
  }

  /** Every value of a Python slice is a value of the sequence. */
  lemma PySliceValues(xs: seq<real>, lo: int, hi: int)
    ensures forall k :: 0 <= k < |PySlice(xs, lo, hi)| ==> PySlice(xs, lo, hi)[k] in xs
  {
    var a := SliceBound(lo, |xs|);
    var b := SliceBound(hi, |xs|);
    if a < b {
      forall k | 0 <= k < b - a
        ensures xs[a..b][k] in xs
      {
        assert xs[a..b][k] == xs[a + k];
      }
    }
  }

  /** A constant model spectrum is rebinned to the same constant in every
      bin of a trace. */
  lemma ConstantSpectrum(s: Setup, fM: seq<real>, bins: seq<Bin>, c: real)
    requires |s.pedges| >= 2 && StrictlyIncreasing(s.pedges)
    requires Traced(s, fM, bins)
    requires forall k :: 0 <= k < |fM| ==> fM[k] == c
    ensures forall k :: 0 <= k < |bins| ==> bins[k].value == c
  {
    BinsChained(s, fM, bins);
    forall k | 0 <= k < |bins|
      ensures bins[k].value == c
    {
      assert BinFacts(s, fM, bins, k);
      AverageOfSlice(fM, bins[k].first, bins[k].last, bins[k].weights, bins[k].value, c);
    }
  }

  /** An average over a slice of a constant vector is that constant. */
  lemma AverageOfSlice(fM: seq<real>, lo: int, hi: int, w: seq<real>, v: real, c: real)
    requires forall k :: 0 <= k < |fM| ==> fM[k] == c
    requires Average(PySlice(fM, lo, hi), w) == Ok(v)
    ensures v == c
  {
    var a := PySlice(fM, lo, hi);
    PySliceValues(fM, lo, hi);
    AverageOfConstant(a, w, c);
  }
}
