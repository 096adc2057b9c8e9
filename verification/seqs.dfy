/**
  Sequence helpers standing in for the numpy operations the source leans on:
  boolean-mask selection (`a[mask]`), `np.delete`, `np.min`/`np.max`,
  `np.unique`, slicing with Python's index rules, and integer powers.
 */
module Seqs {

  predicate StrictlyIncreasing(s: seq<real>) {
    forall i, j :: 0 <= i < j < |s| ==> s[i] < s[j]
  }

  predicate Distinct<T(==)>(s: seq<T>) {
    forall i, j :: 0 <= i < j < |s| ==> s[i] != s[j]
  }

  /** The elements of `xs` that satisfy `keep`, in their original order
      (numpy's `xs[mask]` with `mask = keep(xs)`). */
  function Filter<T(==,!new)>(xs: seq<T>, keep: T -> bool): (r: seq<T>)
    ensures |r| <= |xs|
    ensures forall x :: x in r <==> x in xs && keep(x)
  {
    if |xs| == 0 then []
    else
      var rest := Filter(xs[1..], keep);
      assert xs == [xs[0]] + xs[1..];
      if keep(xs[0]) then [xs[0]] + rest else rest
  }

  /** Selection commutes with concatenation: this is what "order preserved"
      means for a mask. */
  lemma {:induction false} FilterConcat<T(!new)>(a: seq<T>, b: seq<T>, keep: T -> bool)
    ensures Filter(a + b, keep) == Filter(a, keep) + Filter(b, keep)
  {
    if |a| == 0 {
      assert a + b == b;
    } else {
      assert (a + b)[1..] == a[1..] + b;
      FilterConcat(a[1..], b, keep);
    }
  }

  /** Selecting with a predicate no element satisfies leaves nothing. */
  lemma {:induction false} FilterKeepsNone<T(!new)>(xs: seq<T>, keep: T -> bool)
    requires forall k :: 0 <= k < |xs| ==> !keep(xs[k])
    ensures Filter(xs, keep) == []
  {
    if |xs| > 0 {
      FilterKeepsNone(xs[1..], keep);
    }
  }

  /** Selecting with a predicate every element satisfies changes nothing. */
  lemma {:induction false} FilterKeepsAll<T(!new)>(xs: seq<T>, keep: T -> bool)
    requires forall k :: 0 <= k < |xs| ==> keep(xs[k])
    ensures Filter(xs, keep) == xs
  {
    if |xs| > 0 {
      FilterKeepsAll(xs[1..], keep);
      assert xs == [xs[0]] + xs[1..];
    }
  }

  /** What a mask keeps and what its complement keeps add up to the input. */
  lemma {:induction false} FilterPartition<T(!new)>(xs: seq<T>, keep: T -> bool, drop: T -> bool)
    requires forall x :: drop(x) == !keep(x)
    ensures |Filter(xs, keep)| + |Filter(xs, drop)| == |xs|
  {
    if |xs| > 0 {
      FilterPartition(xs[1..], keep, drop);
    }
  }

  /** In a strictly increasing sequence the head is below every later element. */
  lemma HeadBelowTail(s: seq<real>)
    requires |s| > 0 && StrictlyIncreasing(s)
    ensures forall y :: y in s[1..] ==> s[0] < y
  {
    forall y | y in s[1..]
      ensures s[0] < y
    {
      var k :| 0 <= k < |s[1..]| && s[1..][k] == y;
      assert s[k + 1] == y;
    }
  }

  /** Putting a value below every element in front keeps a sequence strictly increasing. */
  lemma ConsIncreasing(x: real, s: seq<real>)
    requires StrictlyIncreasing(s)
    requires forall y :: y in s ==> x < y
    ensures StrictlyIncreasing([x] + s)
  {
    var t := [x] + s;
    forall i, j | 0 <= i < j < |t|
      ensures t[i] < t[j]
    {
      assert t[j] == s[j - 1];
      if i > 0 {
        assert t[i] == s[i - 1];
      } else {
        assert s[j - 1] in s;
      }
    }
  }

  /** A selection from a strictly increasing sequence is strictly increasing. */
  lemma {:induction false} FilterIncreasing(xs: seq<real>, keep: real -> bool)
    requires StrictlyIncreasing(xs)
    ensures StrictlyIncreasing(Filter(xs, keep))
  {
    if |xs| > 0 {
      FilterIncreasing(xs[1..], keep);
      HeadBelowTail(xs);
      if keep(xs[0]) {
        ConsIncreasing(xs[0], Filter(xs[1..], keep));
      }
    }
  }

  /** A selection from a duplicate-free sequence is duplicate-free. */
  lemma {:induction false} FilterDistinct<T(!new)>(xs: seq<T>, keep: T -> bool)
    requires Distinct(xs)
    ensures Distinct(Filter(xs, keep))
  {
    if |xs| > 0 {
      FilterDistinct(xs[1..], keep);
      assert xs[0] !in xs[1..];
    }
  }

  /** `xs` without the positions listed in `drop`, order kept (numpy's
      `np.delete(xs, drop, axis=0)`). */
  function Delete<T(==)>(xs: seq<T>, drop: seq<int>): (r: seq<T>)
    ensures |r| <= |xs|
  {
    if |xs| == 0 then []
    else
      var last := |xs| - 1;
      Delete(xs[..last], drop) + (if last in drop then [] else [xs[last]])
  }

  /** Deleting exactly the positions whose element fails `keep` is the same as
      selecting with `keep`. */
  lemma {:induction false} DeleteIsFilter<T(!new)>(xs: seq<T>, drop: seq<int>, keep: T -> bool)
    requires forall j :: 0 <= j < |xs| ==> (j in drop <==> !keep(xs[j]))
    ensures Delete(xs, drop) == Filter(xs, keep)
  {
    if |xs| > 0 {
      var last := |xs| - 1;
      var init := xs[..last];
      assert forall j :: 0 <= j < |init| ==> init[j] == xs[j];
      DeleteIsFilter(init, drop, keep);
      FilterLast(xs, keep);
    }
  }

  /** Selecting from a non-empty sequence selects from all but its last
      element, then keeps or drops the last one. */
  lemma FilterLast<T(!new)>(xs: seq<T>, keep: T -> bool)
    requires |xs| > 0
    ensures Filter(xs, keep) ==
      Filter(xs[..|xs| - 1], keep) + (if keep(xs[|xs| - 1]) then [xs[|xs| - 1]] else [])
  {
    var init, x := xs[..|xs| - 1], xs[|xs| - 1];
    assert xs == init + [x];
    FilterConcat(init, [x], keep);
    FilterSingle(x, keep);
  }

  lemma FilterSingle<T(!new)>(x: T, keep: T -> bool)
    ensures Filter([x], keep) == if keep(x) then [x] else []
  {
    assert [x][1..] == [];
  }

  /** `np.min` of a non-empty vector. */
  function SeqMin(s: seq<real>): (m: real)
    requires |s| > 0
    ensures m in s
    ensures forall x :: x in s ==> m <= x
  {
    if |s| == 1 then s[0]
    else
      var rest := SeqMin(s[1..]);
      assert s == [s[0]] + s[1..];
      if s[0] <= rest then s[0] else rest
  }

  /** `np.max` of a non-empty vector. */
  function SeqMax(s: seq<real>): (m: real)
    requires |s| > 0
    ensures m in s
    ensures forall x :: x in s ==> x <= m
  {
    if |s| == 1 then s[0]
    else
      var rest := SeqMax(s[1..]);
      assert s == [s[0]] + s[1..];
      if s[0] >= rest then s[0] else rest
  }

  /** Minimum and maximum depend only on the set of values present. */
  lemma MinMaxBySet(a: seq<real>, b: seq<real>)
    requires |a| > 0 && |b| > 0
    requires forall x :: x in a <==> x in b
    ensures SeqMin(a) == SeqMin(b) && SeqMax(a) == SeqMax(b)
  {
  }

  /** `x` added to a strictly increasing sequence, keeping it strictly
      increasing and duplicate-free. */
  function Insert(x: real, s: seq<real>): (r: seq<real>)
    requires StrictlyIncreasing(s)
    ensures StrictlyIncreasing(r)
    ensures forall y :: y in r <==> y == x || y in s
  {
    if |s| == 0 then [x]
    else if x < s[0] then [x] + s
    else if x == s[0] then s
    else
      HeadBelowTail(s);
      var rest := Insert(x, s[1..]);
      ConsIncreasing(s[0], rest);
      [s[0]] + rest
  }

  /** `np.unique`: the distinct values of `s`, sorted. */
  function SortedUnique(s: seq<real>): (r: seq<real>)
    ensures StrictlyIncreasing(r)
    ensures forall y :: y in r <==> y in s
  {
    if |s| == 0 then []
    else
      assert s == [s[0]] + s[1..];
      Insert(s[0], SortedUnique(s[1..]))
  }

  /** Python's normalisation of one slice bound against a length `n`:
      negative bounds count from the end, and both ends are clipped. */
  function SliceBound(i: int, n: nat): (k: nat)
    ensures k <= n
    ensures 0 <= i <= n ==> k == i
  {
    if i < 0 then (if i + n < 0 then 0 else i + n)
    else if i > n then n
    else i
  }

  /** `s[lo:hi]` with Python's slicing rules. */
  function PySlice<T>(s: seq<T>, lo: int, hi: int): (r: seq<T>)
    ensures 0 <= lo <= hi <= |s| ==> r == s[lo..hi]
    ensures 0 <= hi <= lo ==> r == []
    ensures |r| <= |s|
  {
    var a := SliceBound(lo, |s|);
    var b := SliceBound(hi, |s|);
    if a < b then s[a..b] else []
  }

  /** `s[i]` with Python's negative indices counting from the end. */
  function PyIndex<T>(s: seq<T>, i: int): (x: T)
    requires -|s| <= i < |s|
    ensures 0 <= i ==> x == s[i]
    ensures i < 0 ==> x == s[|s| + i]
  {
    if i < 0 then s[|s| + i] else s[i]
  }

  function Pow(x: real, k: nat): real {
    if k == 0 then 1.0 else x * Pow(x, k - 1)
  }
}
