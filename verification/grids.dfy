/**
  Row-major grids of values and integer sums over them: the shared vocabulary
  of the label grid, the spatial memory, the pixel-count pyramid and the
  histogram pyramid.
 */
module Grids {

  /** `g` has exactly `rows` rows of exactly `cols` entries each. */
  predicate IsGrid<T>(g: seq<seq<T>>, rows: int, cols: int) {
    && |g| == rows
    && forall i :: 0 <= i < |g| ==> |g[i]| == cols
  }

  /** Same shape: the same number of rows, each as long as its counterpart. */
  predicate SameShape<T, U>(a: seq<seq<T>>, b: seq<seq<U>>) {
    && |a| == |b|
    && forall i :: 0 <= i < |a| ==> |a[i]| == |b[i]|
  }

  function Min(a: int, b: int): int { if a <= b then a else b }

  function Max(a: int, b: int): int { if a >= b then a else b }

  /** The grid with the single cell (i, j) overwritten by `v`. */
  function Set2<T>(g: seq<seq<T>>, i: int, j: int, v: T): (r: seq<seq<T>>)
    requires 0 <= i < |g| && 0 <= j < |g[i]|
    ensures SameShape(r, g)
    ensures r[i][j] == v
    ensures forall k, l :: 0 <= k < |g| && 0 <= l < |g[k]| && (k != i || l != j) ==> r[k][l] == g[k][l]
  {
    g[i := g[i][j := v]]
  }

  /** Sum of a sequence of integers, accumulated from the front. */
  function Sum(xs: seq<int>): int {
    if |xs| == 0 then 0 else Sum(xs[..|xs| - 1]) + xs[|xs| - 1]
  }

  lemma {:induction false} SumAppend(a: seq<int>, b: seq<int>)
    ensures Sum(a + b) == Sum(a) + Sum(b)
    decreases |b|
  {
    if |b| == 0 {
      assert a + b == a;
    } else {
      assert (a + b)[..|a + b| - 1] == a + b[..|b| - 1];
      SumAppend(a, b[..|b| - 1]);
    }
  }

  /** Overwriting one entry changes the sum by exactly the difference. */
  lemma {:induction false} SumUpdate(xs: seq<int>, k: int, v: int)
    requires 0 <= k < |xs|
    ensures Sum(xs[k := v]) == Sum(xs) - xs[k] + v
    decreases |xs|
  {
    var n := |xs| - 1;
    if k < n {
      assert xs[k := v][..n] == xs[..n][k := v];
      SumUpdate(xs[..n], k, v);
    } else {
      assert xs[k := v][..n] == xs[..n];
    }
  }

  /** A sequence of non-negative entries has a non-negative sum that bounds each entry. */
  lemma {:induction false} SumNonNegative(xs: seq<int>)
    requires forall k :: 0 <= k < |xs| ==> xs[k] >= 0
    ensures Sum(xs) >= 0
    ensures forall k :: 0 <= k < |xs| ==> xs[k] <= Sum(xs)
    decreases |xs|
  {
    if |xs| > 0 {
      SumNonNegative(xs[..|xs| - 1]);
    }
  }

  /** Bin-wise sum of two histograms of equal size. */
  function AddBins(a: seq<int>, b: seq<int>): (r: seq<int>)
    requires |a| == |b|
    ensures |r| == |a|
    ensures forall k :: 0 <= k < |r| ==> r[k] == a[k] + b[k]
  {
    seq(|a|, k requires 0 <= k < |a| => a[k] + b[k])
  }

  /** Bin-wise difference of two histograms of equal size. */
  function SubBins(a: seq<int>, b: seq<int>): (r: seq<int>)
    requires |a| == |b|
    ensures |r| == |a|
    ensures forall k :: 0 <= k < |r| ==> r[k] == a[k] - b[k]
  {
    seq(|a|, k requires 0 <= k < |a| => a[k] - b[k])
  }

  lemma {:induction false} SumAddBins(a: seq<int>, b: seq<int>)
    requires |a| == |b|
    ensures Sum(AddBins(a, b)) == Sum(a) + Sum(b)
    decreases |a|
  {
    if |a| > 0 {
      var n := |a| - 1;
      assert AddBins(a, b)[..n] == AddBins(a[..n], b[..n]);
      SumAddBins(a[..n], b[..n]);
    }
  }

  lemma {:induction false} SumSubBins(a: seq<int>, b: seq<int>)
    requires |a| == |b|
    ensures Sum(SubBins(a, b)) == Sum(a) - Sum(b)
    decreases |a|
  {
    if |a| > 0 {
      var n := |a| - 1;
      assert SubBins(a, b)[..n] == SubBins(a[..n], b[..n]);
      SumSubBins(a[..n], b[..n]);
    }
  }

  /** Sum of every entry of an integer grid, row by row. */
  function GridTotal(g: seq<seq<int>>): int {
    if |g| == 0 then 0 else GridTotal(g[..|g| - 1]) + Sum(g[|g| - 1])
  }

  /** Overwriting one cell changes the grid total by exactly the difference. */
  lemma {:induction false} GridTotalUpdate(g: seq<seq<int>>, i: int, j: int, v: int)
    requires 0 <= i < |g| && 0 <= j < |g[i]|
    ensures GridTotal(Set2(g, i, j, v)) == GridTotal(g) - g[i][j] + v
    decreases |g|
  {
    var n := |g| - 1;
    var r := Set2(g, i, j, v);
    if i < n {
      assert r[..n] == Set2(g[..n], i, j, v);
      GridTotalUpdate(g[..n], i, j, v);
      assert r[n] == g[n];
    } else {
      assert r[..n] == g[..n];
      SumUpdate(g[n], j, v);
    }
  }

  /** rows * cols, added up row by row; the engine states pixel totals
      with it so that its invariant stays within linear arithmetic. */
  function Area(rows: nat, cols: int): int {
    if rows == 0 then 0 else Area(rows - 1, cols) + cols
  }

  lemma {:induction false} AreaIsProduct(rows: nat, cols: int)
    ensures Area(rows, cols) == rows * cols
  {
    if rows > 0 {
      AreaIsProduct(rows - 1, cols);
    }
  }

  /** Row-major concatenation of the rows of a grid. */
  function Flatten<T>(g: seq<seq<T>>): seq<T> {
    if |g| == 0 then [] else Flatten(g[..|g| - 1]) + g[|g| - 1]
  }

  /** A grid of `rows` rows of `cols` entries flattens to rows * cols entries. */
  lemma {:induction false} FlattenLength<T>(g: seq<seq<T>>, rows: int, cols: int)
    requires rows >= 0 && cols >= 0 && IsGrid(g, rows, cols)
    ensures |Flatten(g)| == rows * cols
    decreases rows
  {
    if rows > 0 {
      FlattenLength(g[..rows - 1], rows - 1, cols);
      assert (rows - 1) * cols + cols == rows * cols;
    }
  }
}
