/**
  Integrity helpers over finished label grids: counting the distinct
  superpixels, relabelling them canonically, and the boundary test that
  decides which pixels a contour drawing marks.

  Both counting and relabelling scan the grid row by row. Their facts are
  stated over the row-major flattening of the grid (`Flatten`), where
  "row by row" becomes "left to right".
 */
module Integrity {
  import opened Grids

  // ---------------------------------------------------------------------
  // Distinct values and first occurrences.
  // ---------------------------------------------------------------------

  /** The distinct labels of a sequence. */
  function Values(xs: seq<int>): set<int> {
    set x | x in xs
  }

  lemma ValuesAppend(xs: seq<int>, x: int)
    ensures Values(xs + [x]) == Values(xs) + {x}
  {
    forall y ensures y in Values(xs + [x]) <==> y in Values(xs) + {x} {
      assert y in xs + [x] <==> y in xs || y == x;
    }
  }

  /** Adding an element to a set grows it by one exactly when it is new. */
  lemma CardAddOne(s: set<int>, x: int)
    ensures x in s ==> |s + {x}| == |s|
    ensures x !in s ==> |s + {x}| == |s| + 1
  {
    if x in s {
      assert s + {x} == s;
    } else {
      assert s * {x} == {};
    }
  }

  /** A subset is no larger, and strictly smaller when it misses an element. */
  lemma CardSubset(a: set<int>, b: set<int>, x: int)
    requires a <= b
    ensures |a| <= |b|
    ensures x in b && x !in a ==> |a| < |b|
  {
    var rest := b - a;
    assert b == a + rest;
    assert a * rest == {};
    if x in b && x !in a {
      assert x in rest;
    }
  }

  /** Values of a shorter prefix are values of a longer one. */
  lemma PrefixValues(xs: seq<int>, i: int, j: int)
    requires 0 <= i <= j <= |xs|
    ensures Values(xs[..i]) <= Values(xs[..j])
  {
    forall y | y in Values(xs[..i]) ensures y in Values(xs[..j]) {
      var k :| 0 <= k < i && xs[..i][k] == y;
      assert xs[..j][k] == y;
    }
  }

  /** A sequence has no more distinct values than entries. */
  lemma {:induction false} ValuesBound(xs: seq<int>)
    ensures |Values(xs)| <= |xs|
    decreases |xs|
  {
    if |xs| > 0 {
      var n := |xs| - 1;
      assert xs == xs[..n] + [xs[n]];
      ValuesBound(xs[..n]);
      ValuesAppend(xs[..n], xs[n]);
      CardAddOne(Values(xs[..n]), xs[n]);
    }
  }

  /** Position of the first occurrence of `v` in `xs`. */
  function First(xs: seq<int>, v: int): (k: int)
    requires v in xs
    ensures 0 <= k < |xs| && xs[k] == v && v !in xs[..k]
  {
    if xs[0] == v then 0
    else
      var k := First(xs[1..], v);
      assert xs[..k + 1] == [xs[0]] + xs[1..][..k];
      k + 1
  }

  /** An occurrence with no earlier occurrence is the first one. */
  lemma FirstIs(xs: seq<int>, v: int, k: int)
    requires 0 <= k < |xs| && xs[k] == v && v !in xs[..k]
    ensures First(xs, v) == k
  {
  }

  // ---------------------------------------------------------------------
  // Canonical relabelling as a reference definition.
  // ---------------------------------------------------------------------

  /** The label `v` receives when labels are renumbered in order of first
      appearance: the number of distinct labels seen before it. */
  function Rank(xs: seq<int>, v: int): (r: int)
    requires v in xs
    ensures 0 <= r < |Values(xs)|
  {
    var f := First(xs, v);
    PrefixValues(xs, f, |xs|);
    assert xs[..|xs|] == xs;
    assert v in Values(xs);
    CardSubset(Values(xs[..f]), Values(xs), v);
    |Values(xs[..f])|
  }

  /** Every entry replaced by its first-appearance rank. */
  function Relabelled(xs: seq<int>): (ys: seq<int>)
    ensures |ys| == |xs|
    ensures forall p :: 0 <= p < |xs| ==> 0 <= ys[p] < |Values(xs)|
  {
    seq(|xs|, p requires 0 <= p < |xs| => Rank(xs, xs[p]))
  }

  /** Two labellings of the same cells induce the same partition. */
  predicate SamePartition(xs: seq<int>, ys: seq<int>) {
    && |xs| == |ys|
    && forall p, q :: 0 <= p < |xs| && 0 <= q < |xs| ==> (xs[p] == xs[q] <==> ys[p] == ys[q])
  }

  /** Every label is either one already used or the next unused number, so
      the labels appear in the order 0, 1, 2, ... */
  predicate Canonical(ys: seq<int>) {
    forall p :: 0 <= p < |ys| ==> 0 <= ys[p] <= |Values(ys[..p])|
  }

  /** Distinct labels in first appearance get distinct ranks. */
  lemma RankInjective(xs: seq<int>, a: int, b: int)
    requires a in xs && b in xs && Rank(xs, a) == Rank(xs, b)
    ensures a == b
  {
    var fa, fb := First(xs, a), First(xs, b);
    if fa < fb {
      PrefixValues(xs, fa, fb);
      assert xs[..fb][fa] == a;
      CardSubset(Values(xs[..fa]), Values(xs[..fb]), a);
    } else if fb < fa {
      PrefixValues(xs, fb, fa);
      assert xs[..fa][fb] == b;
      CardSubset(Values(xs[..fb]), Values(xs[..fa]), b);
    }
  }

  /** Labellings with the same partition have equally many distinct labels
      on every prefix. */
  lemma {:induction false} SamePartitionCount(xs: seq<int>, ys: seq<int>, n: int)
    requires SamePartition(xs, ys) && 0 <= n <= |xs|
    ensures |Values(xs[..n])| == |Values(ys[..n])|
    decreases n
  {
    if n > 0 {
      var m := n - 1;
      SamePartitionCount(xs, ys, m);
      assert xs[..n] == xs[..m] + [xs[m]];
      assert ys[..n] == ys[..m] + [ys[m]];
      ValuesAppend(xs[..m], xs[m]);
      ValuesAppend(ys[..m], ys[m]);
      CardAddOne(Values(xs[..m]), xs[m]);
      CardAddOne(Values(ys[..m]), ys[m]);
      if xs[m] in xs[..m] {
        var k :| 0 <= k < m && xs[..m][k] == xs[m];
        assert ys[..m][k] == ys[m];
      }
    }
  }

  /** Relabelling keeps the partition: two cells share a label afterwards
      exactly when they shared one before. */
  lemma RelabelPartition(xs: seq<int>)
    ensures SamePartition(xs, Relabelled(xs))
  {
    var ys := Relabelled(xs);
    forall p, q | 0 <= p < |xs| && 0 <= q < |xs|
      ensures xs[p] == xs[q] <==> ys[p] == ys[q]
    {
      if ys[p] == ys[q] {
        RankInjective(xs, xs[p], xs[q]);
      }
    }
  }

  /** Relabelling keeps the number of distinct labels. */
  lemma RelabelCount(xs: seq<int>)
    ensures |Values(Relabelled(xs))| == |Values(xs)|
  {
    RelabelPartition(xs);
    SamePartitionCount(xs, Relabelled(xs), |xs|);
    assert xs[..|xs|] == xs;
    assert Relabelled(xs)[..|xs|] == Relabelled(xs);
  }

  /** Under the same partition, the first occurrence of a cell's label is
      at the same place. */
  lemma SamePartitionFirst(xs: seq<int>, ys: seq<int>, p: int)
    requires SamePartition(xs, ys) && 0 <= p < |xs|
    ensures First(ys, ys[p]) == First(xs, xs[p])
  {
    FirstIs(ys, ys[p], First(xs, xs[p]));
  }

  /** The relabelled sequence numbers its labels 0, 1, 2, ... in order of
      first appearance. */
  lemma RelabelCanonical(xs: seq<int>)
    ensures Canonical(Relabelled(xs))
  {
    var ys := Relabelled(xs);
    RelabelPartition(xs);
    forall p | 0 <= p < |ys| ensures 0 <= ys[p] <= |Values(ys[..p])| {
      var f := First(xs, xs[p]);
      PrefixValues(xs, f, p);
      CardSubset(Values(xs[..f]), Values(xs[..p]), xs[p]);
      SamePartitionCount(xs, ys, p);
    }
  }

  /** Relabelling twice is relabelling once. */
  lemma RelabelIdempotent(xs: seq<int>)
    ensures Relabelled(Relabelled(xs)) == Relabelled(xs)
  {
    var ys := Relabelled(xs);
    RelabelPartition(xs);
    forall p | 0 <= p < |ys| ensures Relabelled(ys)[p] == ys[p] {
      var f := First(xs, xs[p]);
      SamePartitionFirst(xs, ys, p);
      SamePartitionCount(xs, ys, f);
    }
  }

  // ---------------------------------------------------------------------
  // Row-major scanning of a grid.
  // ---------------------------------------------------------------------

  lemma {:induction false} FlattenAppend(a: seq<seq<int>>, b: seq<seq<int>>)
    ensures Flatten(a + b) == Flatten(a) + Flatten(b)
    decreases |b|
  {
    if |b| == 0 {
      assert a + b == a;
    } else {
      var n := |b| - 1;
      assert (a + b)[..|a + b| - 1] == a + b[..n];
      FlattenAppend(a, b[..n]);
    }
  }

  /** The cells scanned before (i, j), in scanning order. */
  function ScannedBefore(g: seq<seq<int>>, i: int, j: int): seq<int>
    requires 0 <= i < |g| && 0 <= j <= |g[i]|
  {
    Flatten(g[..i]) + g[i][..j]
  }

  /** The cells scanned before (i, j) form a prefix of the flattening, and
      the next entry of the flattening is cell (i, j) itself. */
  lemma ScannedPrefix(g: seq<seq<int>>, i: int, j: int)
    requires 0 <= i < |g| && 0 <= j <= |g[i]|
    ensures var s := ScannedBefore(g, i, j);
      && |s| <= |Flatten(g)|
      && s == Flatten(g)[..|s|]
      && (j < |g[i]| ==> |s| < |Flatten(g)| && Flatten(g)[|s|] == g[i][j])
  {
    assert g == g[..i] + ([g[i]] + g[i + 1..]);
    FlattenAppend(g[..i], [g[i]] + g[i + 1..]);
    FlattenAppend([g[i]], g[i + 1..]);
    assert [g[i]][..0] == [];
    assert Flatten([g[i]]) == g[i];
    assert Flatten(g) == Flatten(g[..i]) + (g[i] + Flatten(g[i + 1..]));
  }

  /** Scanning cell (i, j) extends the scanned prefix by that cell; a full
      row completes the next prefix of rows. */
  lemma ScanStep(g: seq<seq<int>>, i: int, j: int)
    requires 0 <= i < |g| && 0 <= j < |g[i]|
    ensures ScannedBefore(g, i, j + 1) == ScannedBefore(g, i, j) + [g[i][j]]
    ensures j + 1 == |g[i]| ==> ScannedBefore(g, i, j + 1) == Flatten(g[..i + 1])
  {
    assert g[i][..j + 1] == g[i][..j] + [g[i][j]];
    assert g[..i + 1][..i] == g[..i];
    assert g[i][..|g[i]|] == g[i];
  }

  /** Cell (i, j) appears in the flattening. */
  lemma CellInFlatten(g: seq<seq<int>>, i: int, j: int)
    requires 0 <= i < |g| && 0 <= j < |g[i]|
    ensures g[i][j] in Flatten(g)
  {
    ScannedPrefix(g, i, j);
  }

  /** Every label of the grid is non-negative. */
  predicate NonNegative(labels: seq<seq<int>>, rows: int, cols: int)
    requires IsGrid(labels, rows, cols)
  {
    forall i, j :: 0 <= i < rows && 0 <= j < cols ==> labels[i][j] >= 0
  }

  // ---------------------------------------------------------------------
  // countSuperpixels.
  // ---------------------------------------------------------------------

  /** Counts the distinct labels of a grid with a "found" flag per label
      (a set here), incrementing the count whenever a label is seen for
      the first time in row-major order. */
  method CountSuperpixels(labels: seq<seq<int>>, rows: int, cols: int) returns (count: int)
    requires rows > 0 && cols > 0 && IsGrid(labels, rows, cols)
    requires NonNegative(labels, rows, cols)
    ensures count == |Values(Flatten(labels))|
    ensures 1 <= count <= rows * cols
  {
    var found: set<int> := {};
    count := 0;
    var i := 0;
    while i < rows
      invariant 0 <= i <= rows
      invariant found == Values(Flatten(labels[..i])) && count == |found|
    {
      var j := 0;
      while j < cols
        invariant 0 <= j <= cols
        invariant found == Values(ScannedBefore(labels, i, j)) && count == |found|
      {
        var lab := labels[i][j];
        ScanStep(labels, i, j);
        ValuesAppend(ScannedBefore(labels, i, j), lab);
        CardAddOne(found, lab);
        if lab !in found {
          found := found + {lab};
          count := count + 1;
        }
        j := j + 1;
      }
      ScanStep(labels, i, cols - 1);
      i := i + 1;
    }
    assert labels[..rows] == labels;
    CellInFlatten(labels, 0, 0);
    assert labels[0][0] in found;
    ValuesBound(Flatten(labels));
    FlattenLength(labels, rows, cols);
  }

  // ---------------------------------------------------------------------
  // relabel.
  // ---------------------------------------------------------------------

  /** The relabelling table after scanning the first `n` entries of `xs`:
      it holds exactly the labels seen so far, each with its rank, and
      `next` counts them. */
  ghost predicate Tabled(table: map<int, int>, next: int, xs: seq<int>, n: int) {
    && 0 <= n <= |xs|
    && table.Keys == Values(xs[..n])
    && next == |Values(xs[..n])|
    && forall v :: v in table ==> v in xs && table[v] == Rank(xs, v)
  }

  /** Scanning one more entry: a label already in the table keeps its
      entry, a new one receives `next`, which is its rank. */
  lemma TableStep(table: map<int, int>, next: int, xs: seq<int>, n: int)
    requires Tabled(table, next, xs, n) && n < |xs|
    ensures xs[n] in table ==> Tabled(table, next, xs, n + 1) && table[xs[n]] == Rank(xs, xs[n])
    ensures xs[n] !in table ==> Tabled(table[xs[n] := next], next + 1, xs, n + 1) && next == Rank(xs, xs[n])
  {
    assert xs[..n + 1] == xs[..n] + [xs[n]];
    ValuesAppend(xs[..n], xs[n]);
    CardAddOne(Values(xs[..n]), xs[n]);
    if xs[n] !in table {
      FirstIs(xs, xs[n], n);
    }
  }

  /** Relabels the entry at position `pos`: a label already in the table
      keeps its entry, a new one is entered with the next unused number. */
  method RelabelCell(table0: map<int, int>, next0: int, lab: int, ghost xs: seq<int>, ghost pos: int)
    returns (table: map<int, int>, next: int, newLabel: int)
    requires Tabled(table0, next0, xs, pos) && pos < |xs| && xs[pos] == lab
    ensures Tabled(table, next, xs, pos + 1)
    ensures newLabel == Rank(xs, lab)
  {
    TableStep(table0, next0, xs, pos);
    table, next := table0, next0;
    if lab !in table {
      table := table[lab := next];
      next := next + 1;
    }
    newLabel := table[lab];
  }

  /** Renumbers the labels of a grid in row-major order of first
      appearance, keeping a table from old to new labels (a map here; the
      missing entries play the role of -1). */
  method Relabel(labels: seq<seq<int>>, rows: int, cols: int) returns (r: seq<seq<int>>)
    requires rows > 0 && cols > 0 && IsGrid(labels, rows, cols)
    requires NonNegative(labels, rows, cols)
    ensures IsGrid(r, rows, cols)
    ensures Flatten(r) == Relabelled(Flatten(labels))
  {
    var table: map<int, int> := map[];
    var next := 0;
    r := [];
    assert labels[..0] == [];
    var i := 0;
    while i < rows
      invariant 0 <= i <= rows
      invariant GridState(labels, cols, i, table, next, r)
    {
      table, next, r := RelabelNextRow(labels, rows, cols, i, table, next, r);
      i := i + 1;
    }
    assert labels[..rows] == labels;
    assert Relabelled(Flatten(labels))[..|Flatten(labels)|] == Relabelled(Flatten(labels));
  }

  /** The state of `relabel` before row i: the table covers the rows
      scanned so far, and the relabelled rows `r` flatten to that prefix of
      the reference relabelling. */
  ghost predicate GridState(labels: seq<seq<int>>, cols: int, i: int, table: map<int, int>, next: int,
                            r: seq<seq<int>>)
    requires 0 <= i <= |labels|
  {
    var xs, pos := Flatten(labels), |Flatten(labels[..i])|;
    && IsGrid(r, i, cols) && pos <= |xs|
    && Tabled(table, next, xs, pos)
    && Flatten(r) == Relabelled(xs)[..pos]
  }

  /** Relabels row i and appends it to the relabelled rows. */
  method RelabelNextRow(labels: seq<seq<int>>, rows: int, cols: int, i: int,
                        table0: map<int, int>, next0: int, r0: seq<seq<int>>)
    returns (table: map<int, int>, next: int, r: seq<seq<int>>)
    requires rows > 0 && cols > 0 && IsGrid(labels, rows, cols) && 0 <= i < rows
    requires GridState(labels, cols, i, table0, next0, r0)
    ensures GridState(labels, cols, i + 1, table, next, r)
  {
    assert ScannedBefore(labels, i, 0) == Flatten(labels[..i]) by {
      assert labels[i][..0] == [];
    }
    var row;
    table, next, row := RelabelRow(labels, rows, cols, i, table0, next0, Flatten(r0));
    ScanStep(labels, i, cols - 1);
    r := r0 + [row];
    assert r[..|r0|] == r0;
  }

  /** The state of `relabel` before cell (i, j): the table covers the
      cells scanned so far, and the relabelled cells of earlier rows
      (`before`) followed by those of this row (`row`) are that prefix of
      the reference relabelling. */
  ghost predicate RowState(labels: seq<seq<int>>, i: int, j: int, table: map<int, int>, next: int,
                           before: seq<int>, row: seq<int>)
    requires 0 <= i < |labels| && 0 <= j <= |labels[i]|
  {
    var xs, pos := Flatten(labels), |ScannedBefore(labels, i, j)|;
    && |row| == j && pos <= |xs|
    && Tabled(table, next, xs, pos)
    && before + row == Relabelled(xs)[..pos]
  }

  /** Relabels cell (i, j) and appends its new label to the row. */
  method RelabelNext(labels: seq<seq<int>>, i: int, j: int, table0: map<int, int>, next0: int,
                     ghost before: seq<int>, row0: seq<int>)
    returns (table: map<int, int>, next: int, row: seq<int>)
    requires 0 <= i < |labels| && 0 <= j < |labels[i]|
    requires RowState(labels, i, j, table0, next0, before, row0)
    ensures RowState(labels, i, j + 1, table, next, before, row)
  {
    NextPosition(labels, i, j);
    table, next, row := RelabelEntry(table0, next0, labels[i][j], Flatten(labels), |ScannedBefore(labels, i, j)|, before, row0);
  }

  /** Relabels entry `pos` of `xs` and appends the new label to `row`,
      which with `before` makes up the relabelled prefix so far. */
  method RelabelEntry(table0: map<int, int>, next0: int, lab: int, ghost xs: seq<int>, ghost pos: int,
                      ghost before: seq<int>, row0: seq<int>)
    returns (table: map<int, int>, next: int, row: seq<int>)
    requires Tabled(table0, next0, xs, pos) && pos < |xs| && xs[pos] == lab
    requires before + row0 == Relabelled(xs)[..pos]
    ensures Tabled(table, next, xs, pos + 1)
    ensures |row| == |row0| + 1 && before + row == Relabelled(xs)[..pos + 1]
  {
    var newLabel;
    table, next, newLabel := RelabelCell(table0, next0, lab, xs, pos);
    row := row0 + [newLabel];
    ExtendPrefix(Relabelled(xs), pos, before, row0, newLabel);
  }

  /** Cell (i, j) is entry number |ScannedBefore(labels, i, j)| of the flattening. */
  lemma NextPosition(labels: seq<seq<int>>, i: int, j: int)
    requires 0 <= i < |labels| && 0 <= j < |labels[i]|
    ensures var pos := |ScannedBefore(labels, i, j)|;
      && pos < |Flatten(labels)| && Flatten(labels)[pos] == labels[i][j]
      && |ScannedBefore(labels, i, j + 1)| == pos + 1
  {
    ScannedPrefix(labels, i, j);
    ScanStep(labels, i, j);
  }

  /** A prefix of `ys` extended by its next entry is the next prefix. */
  lemma ExtendPrefix(ys: seq<int>, pos: int, before: seq<int>, row: seq<int>, y: int)
    requires 0 <= pos < |ys| && before + row == ys[..pos] && y == ys[pos]
    ensures before + (row + [y]) == ys[..pos + 1]
  {
    assert ys[..pos + 1] == ys[..pos] + [y];
    assert before + (row + [y]) == (before + row) + [y];
  }

  /** One row of `relabel`: each cell takes its label's entry of the table,
      a label seen for the first time taking the next unused number. */
  method RelabelRow(labels: seq<seq<int>>, rows: int, cols: int, i: int,
                    table0: map<int, int>, next0: int, ghost before: seq<int>)
    returns (table: map<int, int>, next: int, row: seq<int>)
    requires rows > 0 && cols > 0 && IsGrid(labels, rows, cols) && 0 <= i < rows
    requires |ScannedBefore(labels, i, 0)| <= |Flatten(labels)|
    requires Tabled(table0, next0, Flatten(labels), |ScannedBefore(labels, i, 0)|)
    requires before == Relabelled(Flatten(labels))[..|ScannedBefore(labels, i, 0)|]
    ensures |row| == cols && |ScannedBefore(labels, i, cols)| <= |Flatten(labels)|
    ensures Tabled(table, next, Flatten(labels), |ScannedBefore(labels, i, cols)|)
    ensures before + row == Relabelled(Flatten(labels))[..|ScannedBefore(labels, i, cols)|]
  {
    table, next, row := table0, next0, [];
    assert before + row == before;
    var j := 0;
    while j < cols
      invariant 0 <= j <= cols
      invariant RowState(labels, i, j, table, next, before, row)
    {
      table, next, row := RelabelNext(labels, i, j, table, next, before, row);
      j := j + 1;
    }
  }

  /** The relabelled grid counts as many superpixels as the original. */
  lemma RelabelKeepsCount(labels: seq<seq<int>>, r: seq<seq<int>>)
    requires Flatten(r) == Relabelled(Flatten(labels))
    ensures |Values(Flatten(r))| == |Values(Flatten(labels))|
  {
    RelabelCount(Flatten(labels));
  }

  // ---------------------------------------------------------------------
  // Contour pixels.
  // ---------------------------------------------------------------------

  /** Whether a contour drawing marks pixel (i, j): one of its four
      neighbours carries another label, a neighbour outside the image
      standing in with the pixel's own label. */
  predicate OnContour(labels: seq<seq<int>>, rows: int, cols: int, i: int, j: int)
    requires IsGrid(labels, rows, cols) && 0 <= i < rows && 0 <= j < cols
  {
    var lab := labels[i][j];
    var top := if i > 0 then labels[i - 1][j] else lab;
    var bottom := if i < rows - 1 then labels[i + 1][j] else lab;
    var left := if j > 0 then labels[i][j - 1] else lab;
    var right := if j < cols - 1 then labels[i][j + 1] else lab;
    lab != top || lab != bottom || lab != left || lab != right
  }

  /** (a, b) is one of the four neighbours of (i, j). */
  predicate Adjacent(i: int, j: int, a: int, b: int) {
    (b == j && (a == i - 1 || a == i + 1)) || (a == i && (b == j - 1 || b == j + 1))
  }

  /** A pixel is on a contour exactly when some 4-neighbour inside the
      image carries a different lab. */
  lemma ContourIff(labels: seq<seq<int>>, rows: int, cols: int, i: int, j: int)
    requires IsGrid(labels, rows, cols) && 0 <= i < rows && 0 <= j < cols
    ensures OnContour(labels, rows, cols, i, j) <==>
      exists a, b :: 0 <= a < rows && 0 <= b < cols && Adjacent(i, j, a, b) && labels[a][b] != labels[i][j]
  {
    var lab := labels[i][j];
    if i > 0 && labels[i - 1][j] != lab {
      assert Adjacent(i, j, i - 1, j);
    } else if i < rows - 1 && labels[i + 1][j] != lab {
      assert Adjacent(i, j, i + 1, j);
    } else if j > 0 && labels[i][j - 1] != lab {
      assert Adjacent(i, j, i, j - 1);
    } else if j < cols - 1 && labels[i][j + 1] != lab {
      assert Adjacent(i, j, i, j + 1);
    }
  }

  /** A grid carrying a single lab has no contour pixel. */
  lemma UniformHasNoContour(labels: seq<seq<int>>, rows: int, cols: int, c: int)
    requires IsGrid(labels, rows, cols)
    requires forall i, j :: 0 <= i < rows && 0 <= j < cols ==> labels[i][j] == c
    ensures forall i, j :: 0 <= i < rows && 0 <= j < cols ==> !OnContour(labels, rows, cols, i, j)
  {
  }
}
