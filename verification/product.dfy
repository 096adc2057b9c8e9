/**
  The cartesian product of the parameter axes, in the order
  `itertools.product(*axes)` produces it: the first axis varies slowest and
  the last axis fastest.
 */
module Product {
  import opened Seqs

  /** A parameter tuple with one coordinate per axis, each taken from that axis. */
  predicate IsGridPoint(p: seq<real>, axes: seq<seq<real>>) {
    |p| == |axes| && forall i :: 0 <= i < |p| ==> p[i] in axes[i]
  }

  /** The number of tuples in the product: the product of the axis lengths. */
  function GridSize(axes: seq<seq<real>>): nat {
    if |axes| == 0 then 1 else |axes[0]| * GridSize(axes[1..])
  }

  /** Every tail, with `x` put in front. */
  function Prepend(x: real, tails: seq<seq<real>>): (r: seq<seq<real>>)
    ensures |r| == |tails|
    ensures forall k :: 0 <= k < |r| ==> r[k] == [x] + tails[k]
  {
    seq(|tails|, k requires 0 <= k < |tails| => [x] + tails[k])
  }

  /** For each head in order, the whole block of tails behind it. */
  function Blocks(heads: seq<real>, tails: seq<seq<real>>): (r: seq<seq<real>>)
    ensures |r| == |heads| * |tails|
  {
    if |heads| == 0 then []
    else
      var rest := Blocks(heads[1..], tails);
      assert |heads| * |tails| == |tails| + (|heads| - 1) * |tails|;
      Prepend(heads[0], tails) + rest
  }

  /** `list(itertools.product(*axes))`. */
  function CartesianProduct(axes: seq<seq<real>>): (r: seq<seq<real>>)
    ensures |r| == GridSize(axes)
  {
    if |axes| == 0 then [[]] else Blocks(axes[0], CartesianProduct(axes[1..]))
  }

  lemma {:induction false} BlocksMember(heads: seq<real>, tails: seq<seq<real>>, p: seq<real>)
    ensures p in Blocks(heads, tails) <==> |p| > 0 && p[0] in heads && p[1..] in tails
  {
    if |heads| > 0 {
      BlocksMember(heads[1..], tails, p);
      var pre := Prepend(heads[0], tails);
      if p in pre {
        var k :| 0 <= k < |pre| && pre[k] == p;
        assert p[1..] == tails[k];
      }
      if |p| > 0 && p[0] == heads[0] && p[1..] in tails {
        var k :| 0 <= k < |tails| && tails[k] == p[1..];
        assert p == [heads[0]] + p[1..];
        assert pre[k] == p;
      }
      assert heads == [heads[0]] + heads[1..];
    }
  }

  /** Soundness and completeness of the enumeration: a tuple is listed exactly
      when it takes each coordinate from the matching axis. */
  lemma {:induction false} ProductMembers(axes: seq<seq<real>>, p: seq<real>)
    ensures p in CartesianProduct(axes) <==> IsGridPoint(p, axes)
  {
    if |axes| == 0 {
      assert p in [[]] <==> p == [];
    } else {
      var tails := CartesianProduct(axes[1..]);
      BlocksMember(axes[0], tails, p);
      if |p| > 0 {
        ProductMembers(axes[1..], p[1..]);
        if IsGridPoint(p, axes) {
          assert p[0] in axes[0];
          forall i | 0 <= i < |p[1..]|
            ensures p[1..][i] in axes[1..][i]
          {
            assert p[i + 1] in axes[i + 1];
          }
        }
        if p[0] in axes[0] && IsGridPoint(p[1..], axes[1..]) {
          forall i | 0 <= i < |p|
            ensures p[i] in axes[i]
          {
            if i > 0 {
              assert p[1..][i - 1] in axes[1..][i - 1];
            }
          }
        }
      }
    }
  }

  lemma MulStep(j: nat, m: nat, k: nat, n: nat)
    requires j < n && k < m
    ensures j * m + k < n * m
    ensures j > 0 ==> j * m + k - m == (j - 1) * m + k
  {
    assert (j + 1) * m == j * m + m;
    assert (j + 1) * m <= n * m;
    if j > 0 {
      assert (j - 1) * m == j * m - m;
    }
  }

  lemma {:induction false} BlocksIndex(heads: seq<real>, tails: seq<seq<real>>, j: nat, k: nat)
    requires j < |heads| && k < |tails|
    ensures j * |tails| + k < |Blocks(heads, tails)|
    ensures Blocks(heads, tails)[j * |tails| + k] == [heads[j]] + tails[k]
  {
    var m := |tails|;
    MulStep(j, m, k, |heads|);
    var pre := Prepend(heads[0], tails);
    var rest := Blocks(heads[1..], tails);
    assert Blocks(heads, tails) == pre + rest;
    var idx := j * m + k;
    if j == 0 {
      assert idx == k;
    } else {
      BlocksIndex(heads[1..], tails, j - 1, k);
      assert idx - m == (j - 1) * m + k;
      assert (pre + rest)[idx] == rest[idx - m];
    }
  }

  /** The enumeration order: the tuple at position `j * |T| + k`, where `T`
      lists the product of the remaining axes, is the `j`-th value of the
      first axis followed by `T[k]`. Applied recursively, the last axis varies
      fastest, as in `itertools.product`. */
  lemma ProductOrder(axes: seq<seq<real>>, j: nat, k: nat)
    requires |axes| > 0
    requires j < |axes[0]| && k < |CartesianProduct(axes[1..])|
    ensures var tails := CartesianProduct(axes[1..]);
      && j * |tails| + k < |CartesianProduct(axes)|
      && CartesianProduct(axes)[j * |tails| + k] == [axes[0][j]] + tails[k]
  {
    BlocksIndex(axes[0], CartesianProduct(axes[1..]), j, k);
  }

  lemma DistinctConcat<T>(a: seq<T>, b: seq<T>)
    requires Distinct(a) && Distinct(b)
    requires forall i, j :: 0 <= i < |a| && 0 <= j < |b| ==> a[i] != b[j]
    ensures Distinct(a + b)
  {
  }

  lemma {:induction false} BlocksDistinct(heads: seq<real>, tails: seq<seq<real>>)
    requires Distinct(heads) && Distinct(tails)
    ensures Distinct(Blocks(heads, tails))
  {
    if |heads| > 0 {
      BlocksDistinct(heads[1..], tails);
      var pre := Prepend(heads[0], tails);
      var rest := Blocks(heads[1..], tails);
      forall i, j | 0 <= i < j < |pre|
        ensures pre[i] != pre[j]
      {
        assert pre[i][1..] == tails[i];
        assert pre[j][1..] == tails[j];
      }
      forall i, j | 0 <= i < |pre| && 0 <= j < |rest|
        ensures pre[i] != rest[j]
      {
        BlocksMember(heads[1..], tails, rest[j]);
        assert rest[j] in rest;
        assert heads[0] !in heads[1..];
        assert pre[i][0] == heads[0];
      }
      DistinctConcat(pre, rest);
    }
  }

  /** With duplicate-free axes, no tuple is enumerated twice. */
  lemma {:induction false} ProductDistinct(axes: seq<seq<real>>)
    requires forall i :: 0 <= i < |axes| ==> Distinct(axes[i])
    ensures Distinct(CartesianProduct(axes))
  {
    if |axes| > 0 {
      ProductDistinct(axes[1..]);
      BlocksDistinct(axes[0], CartesianProduct(axes[1..]));
    }
  }

  /** Each row has at least `width` columns. */
  predicate HasColumns(rows: seq<seq<real>>, width: nat) {
    forall r :: 0 <= r < |rows| ==> |rows[r]| >= width
  }

  /** Column `i` of a matrix given as rows (numpy's `m[:, i]`). */
  function Column(rows: seq<seq<real>>, i: nat): (col: seq<real>)
    requires HasColumns(rows, i + 1)
    ensures |col| == |rows|
    ensures forall r :: 0 <= r < |rows| ==> col[r] == rows[r][i]
  {
    seq(|rows|, r requires 0 <= r < |rows| => rows[r][i])
  }

  lemma ProductHasColumns(axes: seq<seq<real>>)
    ensures HasColumns(CartesianProduct(axes), |axes|)
  {
    var prod := CartesianProduct(axes);
    forall r | 0 <= r < |prod|
      ensures |prod[r]| >= |axes|
    {
      ProductMembers(axes, prod[r]);
    }
  }

  /** When no axis is empty, column `i` of the product takes exactly the
      values of axis `i`. */
  lemma ProductColumn(axes: seq<seq<real>>, i: nat, v: real)
    requires i < |axes|
    requires forall a :: 0 <= a < |axes| ==> |axes[a]| > 0
    ensures HasColumns(CartesianProduct(axes), i + 1)
    ensures v in Column(CartesianProduct(axes), i) <==> v in axes[i]
  {
    var prod := CartesianProduct(axes);
    ProductHasColumns(axes);
    var col := Column(prod, i);
    if v in col {
      var r :| 0 <= r < |col| && col[r] == v;
      ProductMembers(axes, prod[r]);
    }
    if v in axes[i] {
      var p := seq(|axes|, a requires 0 <= a < |axes| => if a == i then v else axes[a][0]);
      ProductMembers(axes, p);
      var r :| 0 <= r < |prod| && prod[r] == p;
      assert col[r] == v;
    }
  }
}
