/**
  The label grid: initial superpixel labels, label <-> (row, column)
  decoding, and the coarse-to-fine descent that hands every block's label
  down to its children and finally to the pixels.

  The label grid always has the image's height x width cells; at a block
  level only its top-left corner of block-count rows and columns is in use.
 */
module Labels {
  import opened Grids
  import opened Geometry

  // ---------------------------------------------------------------------
  // Initial labels.
  // ---------------------------------------------------------------------

  /** The label cell (i, j) starts with: superpixels are numbered row-major
      over the superpixelHeightNumber x superpixelWidthNumber grid; every
      other cell is unused (-1). */
  function InitialLabel(i: int, j: int, superpixelRows: int, superpixelColumns: int): int {
    if 0 <= i < superpixelRows && 0 <= j < superpixelColumns then i * superpixelColumns + j else -1
  }

  /** Fills the image-sized label grid row by row, numbering the cells of
      the superpixel grid with a running counter. */
  method InitializeLabels(height: int, width: int, superpixelRows: int, superpixelColumns: int)
    returns (labels: seq<seq<int>>)
    requires 1 <= superpixelRows <= height && 1 <= superpixelColumns <= width
    ensures IsGrid(labels, height, width)
    ensures forall i, j :: 0 <= i < height && 0 <= j < width ==>
      labels[i][j] == InitialLabel(i, j, superpixelRows, superpixelColumns)
  {
    var next := 0;
    labels := [];
    var i := 0;
    while i < height
      invariant 0 <= i <= height
      invariant IsGrid(labels, i, width)
      invariant forall a, b :: 0 <= a < i && 0 <= b < width ==>
        labels[a][b] == InitialLabel(a, b, superpixelRows, superpixelColumns)
      invariant next == Min(i, superpixelRows) * superpixelColumns
    {
      var row := [];
      var j := 0;
      while j < width
        invariant 0 <= j <= width && |row| == j
        invariant forall b :: 0 <= b < j ==> row[b] == InitialLabel(i, b, superpixelRows, superpixelColumns)
        invariant next == Min(i, superpixelRows) * superpixelColumns + (if i < superpixelRows then Min(j, superpixelColumns) else 0)
      {
        if i < superpixelRows && j < superpixelColumns {
          row := row + [next];
          next := next + 1;
        } else {
          row := row + [-1];
        }
        j := j + 1;
      }
      labels := labels + [row];
      i := i + 1;
    }
  }

  // ---------------------------------------------------------------------
  // Label <-> superpixel position.
  // ---------------------------------------------------------------------

  /** Row of superpixel `lab` in a superpixel grid `columns` wide. */
  function LabelRow(lab: int, columns: int): (r: int)
    requires lab >= 0 && columns >= 1
    ensures r >= 0 && r * columns <= lab < r * columns + columns
  {
    lab / columns
  }

  /** Column of superpixel `lab` in a superpixel grid `columns` wide. */
  function LabelColumn(lab: int, columns: int): (c: int)
    requires lab >= 0 && columns >= 1
    ensures 0 <= c < columns
    ensures LabelRow(lab, columns) * columns + c == lab
  {
    lab % columns
  }

  /** Decoding a label of a rows x columns superpixel grid gives a position
      inside the grid that encodes back to the label. */
  lemma DecodeInRange(lab: int, rows: int, columns: int)
    requires columns >= 1 && 0 <= lab < rows * columns
    ensures 0 <= LabelRow(lab, columns) < rows
    ensures 0 <= LabelColumn(lab, columns) < columns
    ensures LabelRow(lab, columns) * columns + LabelColumn(lab, columns) == lab
  {
    var r := LabelRow(lab, columns);
    if r >= rows {
      MulMonotone(columns, rows, r);
    }
  }

  /** Encoding a position of the superpixel grid and decoding it gives the
      position back, and the label is in range. */
  lemma EncodeDecode(i: int, j: int, rows: int, columns: int)
    requires 0 <= i < rows && 0 <= j < columns
    ensures 0 <= i * columns + j < rows * columns
    ensures LabelRow(i * columns + j, columns) == i
    ensures LabelColumn(i * columns + j, columns) == j
  {
    MulMonotone(columns, i + 1, rows);
    MulMonotone(columns, 0, i);
    var lab := i * columns + j;
    var r := LabelRow(lab, columns);
    if r < i {
      MulMonotone(columns, r + 1, i);
    } else if r > i {
      MulMonotone(columns, i + 1, r);
    }
  }

  /** The initial labels number the superpixel grid one to one: each
      superpixel's label decodes back to its position. */
  lemma InitialLabelsDecode(i: int, j: int, rows: int, columns: int)
    requires 0 <= i < rows && 0 <= j < columns
    ensures 0 <= InitialLabel(i, j, rows, columns) < rows * columns
    ensures LabelRow(InitialLabel(i, j, rows, columns), columns) == i
    ensures LabelColumn(InitialLabel(i, j, rows, columns), columns) == j
  {
    EncodeDecode(i, j, rows, columns);
  }

  // ---------------------------------------------------------------------
  // Going down one block level.
  // ---------------------------------------------------------------------

  /** Parent row (column) of child row k when the parent level has n rows:
      children 2i and 2i + 1 belong to parent i, and the ragged rows past
      2n belong to the last parent. */
  function Owner(k: int, n: int): (o: int)
    requires k >= 0 && n >= 1
    ensures 0 <= o < n && 2 * o <= k
    ensures k <= 2 * o + 1 || o == n - 1
  {
    Min(k / 2, n - 1)
  }

  /** Child row k is owned by parent i exactly when it is 2i, 2i + 1, or a
      ragged row past the last parent's pair. */
  lemma OwnerIff(k: int, n: int, i: int)
    requires k >= 0 && n >= 1 && 0 <= i < n
    ensures Owner(k, n) == i <==> ChildOf(k, i, n)
  {
  }

  /** Row k is a child row of parent row i of n: 2i, 2i + 1, or past them
      when i is the last parent. */
  predicate ChildOf(k: int, i: int, n: int) {
    (2 * i <= k <= 2 * i + 1) || (i == n - 1 && k >= 2 * i + 2)
  }

  /** The label grid after descending from a level of h x w blocks to one
      of newH x newW blocks: each cell of the new block grid inherits its
      owner's label; the cells outside it keep whatever they held. */
  function Expand(labels: seq<seq<int>>, rows: int, cols: int, h: int, w: int, newH: int, newW: int): (r: seq<seq<int>>)
    requires IsGrid(labels, rows, cols) && h >= 1 && w >= 1
    requires 2 * h <= newH <= rows && 2 * w <= newW <= cols
    ensures IsGrid(r, rows, cols)
  {
    seq(rows, k requires 0 <= k < rows => seq(cols, l requires 0 <= l < cols =>
      if k < newH && l < newW then labels[Owner(k, h)][Owner(l, w)] else labels[k][l]))
  }

  /** Every child of a parent block inherits the parent's label: the 2 x 2
      square and, in the last row and column, the ragged extras. */
  lemma ExpandInherits(labels: seq<seq<int>>, rows: int, cols: int, h: int, w: int, newH: int, newW: int, i: int, j: int)
    requires IsGrid(labels, rows, cols) && h >= 1 && w >= 1
    requires 2 * h <= newH <= rows && 2 * w <= newW <= cols
    requires 0 <= i < h && 0 <= j < w
    ensures forall k, l :: 0 <= k < newH && 0 <= l < newW && ChildOf(k, i, h) && ChildOf(l, j, w) ==>
      Expand(labels, rows, cols, h, w, newH, newW)[k][l] == labels[i][j]
  {
    forall k, l | 0 <= k < newH && 0 <= l < newW && ChildOf(k, i, h) && ChildOf(l, j, w)
      ensures Expand(labels, rows, cols, h, w, newH, newW)[k][l] == labels[i][j]
    {
      OwnerIff(k, h, i);
      OwnerIff(l, w, j);
    }
  }

  /** Row-major position of the parent that owns new cell (k, l). */
  function OwnerIndex(k: int, l: int, h: int, w: int): int
    requires k >= 0 && l >= 0 && h >= 1 && w >= 1
  {
    Owner(k, h) * w + Owner(l, w)
  }

  /** The grid part-way through the reverse-order expansion: the new cells
      whose owner comes at or after position p already hold the owner's
      label, every other cell still holds its original value. */
  ghost predicate ExpandedFrom(orig: seq<seq<int>>, cur: seq<seq<int>>, rows: int, cols: int,
                               h: int, w: int, newH: int, newW: int, p: int)
    requires IsGrid(orig, rows, cols) && h >= 1 && w >= 1
    requires 2 * h <= newH <= rows && 2 * w <= newW <= cols
  {
    && IsGrid(cur, rows, cols)
    && forall k, l {:trigger cur[k][l]} :: 0 <= k < rows && 0 <= l < cols ==>
         cur[k][l] == (if k < newH && l < newW && OwnerIndex(k, l, h, w) >= p
                       then orig[Owner(k, h)][Owner(l, w)] else orig[k][l])
  }

  /** A parent never comes after any of its children in row-major order,
      so the parent (i, j) is read before anything overwrites it. */
  lemma OwnerNotAfter(i: int, j: int, h: int, w: int)
    requires 0 <= i < h && 0 <= j < w
    ensures OwnerIndex(i, j, h, w) <= i * w + j
  {
    MulMonotone(w, Owner(i, h), i);
  }

  /** Distinct parents have distinct row-major positions. */
  lemma IndexUnique(a: int, b: int, c: int, d: int, w: int)
    requires 0 <= b < w && 0 <= d < w && 0 <= a && 0 <= c
    ensures a * w + b == c * w + d <==> a == c && b == d
  {
    if a < c {
      MulMonotone(w, a + 1, c);
    } else if a > c {
      MulMonotone(w, c + 1, a);
    }
  }

  /** The cells [r0, r1) x [c0, c1) set to v, as the nested fill loops do. */
  method FillRectangle(g: seq<seq<int>>, rows: int, cols: int, r0: int, r1: int, c0: int, c1: int, v: int)
    returns (r: seq<seq<int>>)
    requires IsGrid(g, rows, cols) && 0 <= r0 && r1 <= rows && 0 <= c0 && c1 <= cols
    ensures IsGrid(r, rows, cols)
    ensures forall k, l :: 0 <= k < rows && 0 <= l < cols ==>
      r[k][l] == (if r0 <= k < r1 && c0 <= l < c1 then v else g[k][l])
  {
    r := g;
    var k := r0;
    while k < r1
      invariant IsGrid(r, rows, cols)
      invariant r0 <= k || r1 <= r0
      invariant forall a, b :: 0 <= a < rows && 0 <= b < cols ==>
        r[a][b] == (if r0 <= a < k && a < r1 && c0 <= b < c1 then v else g[a][b])
    {
      var l := c0;
      while l < c1
        invariant IsGrid(r, rows, cols)
        invariant c0 <= l || c1 <= c0
        invariant forall a, b :: 0 <= a < rows && 0 <= b < cols ==>
          r[a][b] == (if (r0 <= a < k && a < r1 && c0 <= b < c1) || (a == k && c0 <= b < l && b < c1) then v else g[a][b])
      {
        r := Set2(r, k, l, v);
        l := l + 1;
      }
      k := k + 1;
    }
  }

  /** Parent (i, j) writes its label v into all of its children: the
      2 x 2 square, then the ragged corner, extra rows and extra columns. */
  method WriteChildren(g: seq<seq<int>>, rows: int, cols: int, h: int, w: int, newH: int, newW: int, i: int, j: int, v: int)
    returns (r: seq<seq<int>>)
    requires IsGrid(g, rows, cols) && h >= 1 && w >= 1
    requires 2 * h <= newH <= rows && 2 * w <= newW <= cols
    requires 0 <= i < h && 0 <= j < w
    ensures IsGrid(r, rows, cols)
    ensures forall k, l :: 0 <= k < rows && 0 <= l < cols ==>
      r[k][l] == (if k < newH && l < newW && Owner(k, h) == i && Owner(l, w) == j then v else g[k][l])
  {
    r := Set2(g, 2 * i, 2 * j, v);
    r := Set2(r, 2 * i + 1, 2 * j, v);
    r := Set2(r, 2 * i, 2 * j + 1, v);
    r := Set2(r, 2 * i + 1, 2 * j + 1, v);
    if i == h - 1 && j == w - 1 {
      r := FillRectangle(r, rows, cols, 2 * i + 2, newH, 2 * j + 2, newW, v);
    }
    if i == h - 1 {
      r := FillRectangle(r, rows, cols, 2 * i + 2, newH, 2 * j, 2 * j + 2, v);
    }
    if j == w - 1 {
      r := FillRectangle(r, rows, cols, 2 * i, 2 * i + 2, 2 * j + 2, newW, v);
    }
    forall k, l | 0 <= k < rows && 0 <= l < cols
      ensures r[k][l] == (if k < newH && l < newW && Owner(k, h) == i && Owner(l, w) == j then v else g[k][l])
    {
      if k < newH && l < newW {
        OwnerIff(k, h, i);
        OwnerIff(l, w, j);
      }
    }
  }

  /** The in-place descent: parents are visited in reverse row-major order
      and each writes its label into its children inside the same grid. */
  method GoDownInPlace(labels: seq<seq<int>>, rows: int, cols: int, h: int, w: int, newH: int, newW: int)
    returns (r: seq<seq<int>>)
    requires IsGrid(labels, rows, cols) && h >= 1 && w >= 1
    requires 2 * h <= newH <= rows && 2 * w <= newW <= cols
    ensures r == Expand(labels, rows, cols, h, w, newH, newW)
  {
    r := labels;
    ExpandedFromStart(labels, rows, cols, h, w, newH, newW);
    var i := h - 1;
    while i > -1
      invariant -1 <= i < h
      invariant ExpandedFrom(labels, r, rows, cols, h, w, newH, newW, (i + 1) * w)
    {
      assert (i + 1) * w == i * w + (w - 1) + 1;
      var j := w - 1;
      while j > -1
        invariant -1 <= j < w
        invariant ExpandedFrom(labels, r, rows, cols, h, w, newH, newW, i * w + j + 1)
      {
        r := DescendStep(labels, r, rows, cols, h, w, newH, newW, i, j);
        j := j - 1;
      }
      assert i * w + j + 1 == (i - 1 + 1) * w;
      i := i - 1;
    }
    ExpandedFromDone(labels, r, rows, cols, h, w, newH, newW);
  }

  /** Before any parent is visited nothing has changed. */
  lemma ExpandedFromStart(labels: seq<seq<int>>, rows: int, cols: int, h: int, w: int, newH: int, newW: int)
    requires IsGrid(labels, rows, cols) && h >= 1 && w >= 1
    requires 2 * h <= newH <= rows && 2 * w <= newW <= cols
    ensures ExpandedFrom(labels, labels, rows, cols, h, w, newH, newW, h * w)
  {
    forall k, l | 0 <= k < rows && 0 <= l < cols && k < newH && l < newW
      ensures OwnerIndex(k, l, h, w) < h * w
    {
      MulMonotone(w, Owner(k, h) + 1, h);
    }
  }

  /** Once every parent has been visited the grid is the expanded one. */
  lemma ExpandedFromDone(labels: seq<seq<int>>, r: seq<seq<int>>, rows: int, cols: int, h: int, w: int, newH: int, newW: int)
    requires IsGrid(labels, rows, cols) && h >= 1 && w >= 1
    requires 2 * h <= newH <= rows && 2 * w <= newW <= cols
    requires ExpandedFrom(labels, r, rows, cols, h, w, newH, newW, 0)
    ensures r == Expand(labels, rows, cols, h, w, newH, newW)
  {
    var e := Expand(labels, rows, cols, h, w, newH, newW);
    forall k | 0 <= k < rows
      ensures r[k] == e[k]
    {
      forall l | 0 <= l < cols
        ensures r[k][l] == e[k][l]
      {
        if k < newH && l < newW {
          MulMonotone(w, 0, Owner(k, h));
          assert OwnerIndex(k, l, h, w) >= 0;
          assert r[k][l] == labels[Owner(k, h)][Owner(l, w)];
        }
      }
    }
  }

  /** One step of the descent: parent (i, j), read from the grid before any
      of its children is written, hands its label down. */
  method DescendStep(orig: seq<seq<int>>, cur: seq<seq<int>>, rows: int, cols: int,
                     h: int, w: int, newH: int, newW: int, i: int, j: int)
    returns (r: seq<seq<int>>)
    requires IsGrid(orig, rows, cols) && h >= 1 && w >= 1
    requires 2 * h <= newH <= rows && 2 * w <= newW <= cols
    requires 0 <= i < h && 0 <= j < w
    requires ExpandedFrom(orig, cur, rows, cols, h, w, newH, newW, i * w + j + 1)
    ensures ExpandedFrom(orig, r, rows, cols, h, w, newH, newW, i * w + j)
  {
    OwnerNotAfter(i, j, h, w);
    var v := cur[i][j];
    assert v == orig[i][j];
    r := WriteChildren(cur, rows, cols, h, w, newH, newW, i, j, v);
    forall k, l | 0 <= k < rows && 0 <= l < cols && k < newH && l < newW
      ensures OwnerIndex(k, l, h, w) == i * w + j <==> Owner(k, h) == i && Owner(l, w) == j
    {
      IndexUnique(Owner(k, h), Owner(l, w), i, j, w);
    }
  }

  // ---------------------------------------------------------------------
  // Going down to the pixels.
  // ---------------------------------------------------------------------

  /** Block row (column) of pixel row k at level 1 with n blocks of `size`:
      the last block also takes the remainder rows. */
  function BlockOf(k: int, size: int, n: int): (b: int)
    requires k >= 0 && size >= 1 && n >= 1
    ensures 0 <= b < n && b * size <= k
    ensures k < (b + 1) * size || b == n - 1
  {
    Min(k / size, n - 1)
  }

  /** The label grid at pixel resolution: every pixel takes the label of
      the level-1 block it lies in. */
  function ExpandToPixels(labels: seq<seq<int>>, rows: int, cols: int, n: int, m: int, blockHeight: int, blockWidth: int): (r: seq<seq<int>>)
    requires IsGrid(labels, rows, cols) && 1 <= n <= rows && 1 <= m <= cols
    requires blockHeight >= 1 && blockWidth >= 1
    ensures IsGrid(r, rows, cols)
  {
    seq(rows, k requires 0 <= k < rows => seq(cols, l requires 0 <= l < cols =>
      labels[BlockOf(k, blockHeight, n)][BlockOf(l, blockWidth, m)]))
  }

  /** Pixel row k lies in block row i exactly when it is inside the block's
      rows, the last block reaching to the border. */
  lemma BlockOfIff(k: int, size: int, n: int, i: int, total: int)
    requires 0 <= k < total && size >= 1 && 0 <= i < n
    ensures BlockOf(k, size, n) == i <==>
      (i * size <= k && (k < (i + 1) * size || i == n - 1))
  {
    var b := BlockOf(k, size, n);
    if b < i {
      MulMonotone(size, b + 1, i);
    } else if b > i {
      MulMonotone(size, i + 1, b);
    }
  }

  /** Copies the block labels aside, then fills each block's rectangle of
      pixels with its label, block by block in row-major order. */
  method GoDownToPixels(labels: seq<seq<int>>, rows: int, cols: int, n: int, m: int, blockHeight: int, blockWidth: int)
    returns (r: seq<seq<int>>)
    requires IsGrid(labels, rows, cols) && 1 <= n <= rows && 1 <= m <= cols
    requires blockHeight >= 1 && blockWidth >= 1
    requires n * blockHeight <= rows && m * blockWidth <= cols
    ensures r == ExpandToPixels(labels, rows, cols, n, m, blockHeight, blockWidth)
  {
    var blockLabels := seq(n, i requires 0 <= i < n => labels[i][..m]);
    r := labels;
    var i := 0;
    while i < n
      invariant 0 <= i <= n
      invariant FilledBlocks(labels, blockLabels, r, rows, cols, n, m, blockHeight, blockWidth, i, 0)
    {
      var j := 0;
      while j < m
        invariant 0 <= j <= m
        invariant FilledBlocks(labels, blockLabels, r, rows, cols, n, m, blockHeight, blockWidth, i, j)
      {
        r := FillBlock(r, labels, blockLabels, rows, cols, n, m, blockHeight, blockWidth, i, j);
        j := j + 1;
      }
      FilledNextRow(labels, blockLabels, r, rows, cols, n, m, blockHeight, blockWidth, i);
      i := i + 1;
    }
    FilledDone(labels, blockLabels, r, rows, cols, n, m, blockHeight, blockWidth);
  }

  /** Block (a, b) comes before block (i, j) in row-major order. */
  predicate Before(a: int, b: int, i: int, j: int) {
    a < i || (a == i && b < j)
  }

  /** The pixel grid part-way through the fill: the pixels of every block
      before (i, j) hold that block's saved label, the others are untouched. */
  ghost predicate FilledBlocks(orig: seq<seq<int>>, blockLabels: seq<seq<int>>, cur: seq<seq<int>>, rows: int, cols: int,
                               n: int, m: int, blockHeight: int, blockWidth: int, i: int, j: int)
    requires IsGrid(orig, rows, cols) && IsGrid(blockLabels, n, m) && 1 <= n && 1 <= m && blockHeight >= 1 && blockWidth >= 1
  {
    && IsGrid(cur, rows, cols)
    && forall k, l {:trigger cur[k][l]} :: 0 <= k < rows && 0 <= l < cols ==>
         cur[k][l] == (if Before(BlockOf(k, blockHeight, n), BlockOf(l, blockWidth, m), i, j)
                       then blockLabels[BlockOf(k, blockHeight, n)][BlockOf(l, blockWidth, m)] else orig[k][l])
  }

  lemma FilledNextRow(orig: seq<seq<int>>, blockLabels: seq<seq<int>>, cur: seq<seq<int>>, rows: int, cols: int,
                      n: int, m: int, blockHeight: int, blockWidth: int, i: int)
    requires IsGrid(orig, rows, cols) && IsGrid(blockLabels, n, m) && 1 <= n && 1 <= m && blockHeight >= 1 && blockWidth >= 1
    requires FilledBlocks(orig, blockLabels, cur, rows, cols, n, m, blockHeight, blockWidth, i, m)
    ensures FilledBlocks(orig, blockLabels, cur, rows, cols, n, m, blockHeight, blockWidth, i + 1, 0)
  {
  }

  lemma FilledDone(orig: seq<seq<int>>, blockLabels: seq<seq<int>>, cur: seq<seq<int>>, rows: int, cols: int,
                   n: int, m: int, blockHeight: int, blockWidth: int)
    requires IsGrid(orig, rows, cols) && 1 <= n <= rows && 1 <= m <= cols && blockHeight >= 1 && blockWidth >= 1
    requires blockLabels == seq(n, i requires 0 <= i < n => orig[i][..m])
    requires FilledBlocks(orig, blockLabels, cur, rows, cols, n, m, blockHeight, blockWidth, n, 0)
    ensures cur == ExpandToPixels(orig, rows, cols, n, m, blockHeight, blockWidth)
  {
    var e := ExpandToPixels(orig, rows, cols, n, m, blockHeight, blockWidth);
    forall k | 0 <= k < rows
      ensures cur[k] == e[k]
    {
      forall l | 0 <= l < cols
        ensures cur[k][l] == e[k][l]
      {
        assert cur[k][l] == blockLabels[BlockOf(k, blockHeight, n)][BlockOf(l, blockWidth, m)];
      }
    }
  }

  /** Fills the pixels of level-1 block (i, j) with its saved label. */
  method FillBlock(g: seq<seq<int>>, labels: seq<seq<int>>, blockLabels: seq<seq<int>>, rows: int, cols: int,
                   n: int, m: int, blockHeight: int, blockWidth: int, i: int, j: int)
    returns (r: seq<seq<int>>)
    requires IsGrid(g, rows, cols) && IsGrid(labels, rows, cols) && IsGrid(blockLabels, n, m) && 1 <= n && 1 <= m
    requires blockHeight >= 1 && blockWidth >= 1
    requires n * blockHeight <= rows && m * blockWidth <= cols
    requires 0 <= i < n && 0 <= j < m
    requires FilledBlocks(labels, blockLabels, g, rows, cols, n, m, blockHeight, blockWidth, i, j)
    ensures FilledBlocks(labels, blockLabels, r, rows, cols, n, m, blockHeight, blockWidth, i, j + 1)
  {
    var heightEnd := blockHeight * i + blockHeight;
    var widthEnd := blockWidth * j + blockWidth;
    if i == n - 1 {
      heightEnd := rows;
    }
    if j == m - 1 {
      widthEnd := cols;
    }
    MulMonotone(blockHeight, i + 1, n);
    MulMonotone(blockWidth, j + 1, m);
    MulMonotone(blockHeight, 0, i);
    MulMonotone(blockWidth, 0, j);
    assert (i + 1) * blockHeight == blockHeight * i + blockHeight;
    assert (j + 1) * blockWidth == blockWidth * j + blockWidth;
    assert heightEnd == SpanEnd(i, n, blockHeight, rows) && widthEnd == SpanEnd(j, m, blockWidth, cols);
    r := FillRectangle(g, rows, cols, blockHeight * i, heightEnd, blockWidth * j, widthEnd, blockLabels[i][j]);
    FilledAfterBlock(labels, blockLabels, g, r, rows, cols, n, m, blockHeight, blockWidth, i, j);
  }

  /** Filling the rectangle of block (i, j) extends the filled prefix by
      exactly that block. */
  lemma FilledAfterBlock(labels: seq<seq<int>>, blockLabels: seq<seq<int>>, g: seq<seq<int>>, r: seq<seq<int>>,
                         rows: int, cols: int, n: int, m: int, blockHeight: int, blockWidth: int, i: int, j: int)
    requires IsGrid(g, rows, cols) && IsGrid(labels, rows, cols) && IsGrid(blockLabels, n, m) && 1 <= n && 1 <= m
    requires blockHeight >= 1 && blockWidth >= 1
    requires 0 <= i < n && 0 <= j < m
    requires FilledBlocks(labels, blockLabels, g, rows, cols, n, m, blockHeight, blockWidth, i, j)
    requires IsGrid(r, rows, cols)
    requires forall k, l :: 0 <= k < rows && 0 <= l < cols ==>
      r[k][l] == (if blockHeight * i <= k < SpanEnd(i, n, blockHeight, rows) && blockWidth * j <= l < SpanEnd(j, m, blockWidth, cols)
                  then blockLabels[i][j] else g[k][l])
    ensures FilledBlocks(labels, blockLabels, r, rows, cols, n, m, blockHeight, blockWidth, i, j + 1)
  {
    forall k, l | 0 <= k < rows && 0 <= l < cols
      ensures r[k][l] == (if Before(BlockOf(k, blockHeight, n), BlockOf(l, blockWidth, m), i, j + 1)
                          then blockLabels[BlockOf(k, blockHeight, n)][BlockOf(l, blockWidth, m)] else labels[k][l])
    {
      BlockOfIff(k, blockHeight, n, i, rows);
      BlockOfIff(l, blockWidth, m, j, cols);
      assert g[k][l] == (if Before(BlockOf(k, blockHeight, n), BlockOf(l, blockWidth, m), i, j)
                         then blockLabels[BlockOf(k, blockHeight, n)][BlockOf(l, blockWidth, m)] else labels[k][l]);
    }
  }
}
