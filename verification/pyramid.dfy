/**
  The block pyramid: per-block pixel counts and histograms at every level.

  Level 1 blocks are rectangles of the bin grid, the last block row and column
  stretching to the image border. A block at level l >= 2 aggregates its 2 x 2
  children at level l - 1 and, in the last block row and column, the ragged
  extra row and column of children that an odd block count below leaves over.
 */
module Pyramid {
  import opened Grids
  import opened Geometry
  import Binning

  /** The blocks of one level: a pixel count and a histogram per block. */
  datatype Level = Level(pixels: seq<seq<int>>, histograms: seq<seq<seq<int>>>)

  // ---------------------------------------------------------------------
  // Spans of a block row or column.
  // ---------------------------------------------------------------------

  /** Number of rows (columns) of block i. */
  function Span(i: int, number: int, size: int, total: int): int {
    SpanEnd(i, number, size, total) - i * size
  }

  /** Every block spans at least `size` rows, and the last reaches the border. */
  lemma SpanBounds(i: int, number: int, size: int, total: int)
    requires 0 <= i < number && size >= 1 && number * size <= total
    ensures size <= Span(i, number, size, total)
    ensures 0 <= i * size && SpanEnd(i, number, size, total) <= total
  {
    MulMonotone(size, i + 1, number);
    MulMonotone(size, 0, i);
  }

  /** The spans of the first m blocks, none of them the last, add up to m * size. */
  lemma {:induction false} SpanPrefix(m: int, number: int, size: int, total: int)
    requires 0 <= m < number
    ensures Sum(seq(m, i => Span(i, number, size, total))) == m * size
    decreases m
  {
    if m > 0 {
      assert seq(m, i => Span(i, number, size, total))[..m - 1] == seq(m - 1, i => Span(i, number, size, total));
      SpanPrefix(m - 1, number, size, total);
      assert (m - 1) * size + size == m * size;
    }
  }

  /** The spans of all blocks of a row (column) tile the whole border length. */
  lemma SpanTotal(number: int, size: int, total: int)
    requires number >= 1
    ensures Sum(seq(number, i => Span(i, number, size, total))) == total
  {
    var s := seq(number, i => Span(i, number, size, total));
    assert s[..number - 1] == seq(number - 1, i => Span(i, number, size, total));
    SpanPrefix(number - 1, number, size, total);
  }

  /** The children of block i (two, or three in a last block with a ragged
      child left over) span exactly the rows (columns) of block i. */
  lemma ChildSpans(i: int, number: int, below: int, size: int, total: int)
    requires 0 <= i < number && 2 * number <= below <= 2 * number + 1
    ensures Span(2 * i, below, size, total) + Span(2 * i + 1, below, size, total)
      + (if i == number - 1 && 2 * i + 2 < below then Span(2 * i + 2, below, size, total) else 0)
      == Span(i, number, 2 * size, total)
  {
    assert (2 * i + 1) * size == 2 * i * size + size;
    assert (2 * i + 2) * size == 2 * i * size + 2 * size;
    assert (i + 1) * (2 * size) == 2 * i * size + 2 * size;
    assert i * (2 * size) == 2 * i * size;
  }

  // ---------------------------------------------------------------------
  // Level 1: counting the bins of each rectangle.
  // ---------------------------------------------------------------------

  /** The bins of the rectangle [r0, r1) x [c0, c1), row-major. */
  function RegionBins(bins: seq<seq<int>>, r0: int, r1: int, c0: int, c1: int): (xs: seq<int>)
    requires 0 <= r0 <= r1 <= |bins| && 0 <= c0 <= c1
    requires forall r :: 0 <= r < |bins| ==> c1 <= |bins[r]|
    ensures |xs| == (r1 - r0) * (c1 - c0)
  {
    var g := seq(r1 - r0, a requires 0 <= a < r1 - r0 => bins[r0 + a][c0..c1]);
    FlattenLength(g, r1 - r0, c1 - c0);
    Flatten(g)
  }

  /** Every entry of a flattened grid is an entry of the grid. */
  lemma {:induction false} FlattenBounded(g: seq<seq<int>>, lo: int, hi: int)
    requires forall a, b :: 0 <= a < |g| && 0 <= b < |g[a]| ==> lo <= g[a][b] < hi
    ensures forall k :: 0 <= k < |Flatten(g)| ==> lo <= Flatten(g)[k] < hi
    decreases |g|
  {
    if |g| > 0 {
      FlattenBounded(g[..|g| - 1], lo, hi);
    }
  }

  lemma RegionBinsBounded(bins: seq<seq<int>>, r0: int, r1: int, c0: int, c1: int, size: int)
    requires 0 <= r0 <= r1 <= |bins| && 0 <= c0 <= c1
    requires forall r :: 0 <= r < |bins| ==> c1 <= |bins[r]|
    requires forall r, c :: 0 <= r < |bins| && 0 <= c < |bins[r]| ==> 0 <= bins[r][c] < size
    ensures forall k :: 0 <= k < |RegionBins(bins, r0, r1, c0, c1)| ==> 0 <= RegionBins(bins, r0, r1, c0, c1)[k] < size
  {
    var g := seq(r1 - r0, a requires 0 <= a < r1 - r0 => bins[r0 + a][c0..c1]);
    FlattenBounded(g, 0, size);
  }

  /** Histogram of a list of bins: one count per bin, incremented in order. */
  function Tally(xs: seq<int>, size: int): (h: seq<int>)
    requires size >= 0 && forall k :: 0 <= k < |xs| ==> 0 <= xs[k] < size
    ensures |h| == size
  {
    if |xs| == 0 then seq(size, b => 0)
    else
      var h := Tally(xs[..|xs| - 1], size);
      var b := xs[|xs| - 1];
      h[b := h[b] + 1]
  }

  /** Each entry of the tally counts the occurrences of its bin. */
  lemma {:induction false} TallyCounts(xs: seq<int>, size: int)
    requires size >= 0 && forall k :: 0 <= k < |xs| ==> 0 <= xs[k] < size
    ensures forall b :: 0 <= b < size ==> Tally(xs, size)[b] == Binning.CountEqual(xs, b)
    decreases |xs|
  {
    if |xs| > 0 {
      TallyCounts(xs[..|xs| - 1], size);
    }
  }

  /** A tally has non-negative entries that add up to the number of items. */
  lemma {:induction false} TallyTotal(xs: seq<int>, size: int)
    requires size >= 0 && forall k :: 0 <= k < |xs| ==> 0 <= xs[k] < size
    ensures Sum(Tally(xs, size)) == |xs|
    ensures forall b :: 0 <= b < size ==> Tally(xs, size)[b] >= 0
    decreases |xs|
  {
    if |xs| == 0 {
      ZerosSum(size);
    } else {
      var n := |xs| - 1;
      TallyTotal(xs[..n], size);
      SumUpdate(Tally(xs[..n], size), xs[n], Tally(xs[..n], size)[xs[n]] + 1);
    }
  }

  lemma {:induction false} ZerosSum(size: int)
    requires size >= 0
    ensures Sum(seq(size, b => 0)) == 0
    decreases size
  {
    if size > 0 {
      assert seq(size, b => 0)[..size - 1] == seq(size - 1, b => 0);
      ZerosSum(size - 1);
    }
  }

  /** The rows of level-1 block row i, and the columns of block column j. */
  function RowEnd(g: Geometry, i: int): int
    requires Valid(g)
  {
    SpanEnd(i, BlockHeightNumber(g, 1), BlockHeight(g, 1), g.height)
  }

  function ColumnEnd(g: Geometry, j: int): int
    requires Valid(g)
  {
    SpanEnd(j, BlockWidthNumber(g, 1), BlockWidth(g, 1), g.width)
  }

  /** A bin grid of the image's shape whose bins index a histogram of `size` bins. */
  predicate ValidBins(g: Geometry, bins: seq<seq<int>>, size: int) {
    && IsGrid(bins, g.height, g.width)
    && forall r, c :: 0 <= r < |bins| && 0 <= c < |bins[r]| ==> 0 <= bins[r][c] < size
  }

  /** The bins of level-1 block (i, j). */
  function BlockRegion(g: Geometry, bins: seq<seq<int>>, size: int, i: int, j: int): (xs: seq<int>)
    requires Valid(g) && ValidBins(g, bins, size)
    requires 0 <= i < BlockHeightNumber(g, 1) && 0 <= j < BlockWidthNumber(g, 1)
    ensures |xs| == Span(i, BlockHeightNumber(g, 1), BlockHeight(g, 1), g.height)
                  * Span(j, BlockWidthNumber(g, 1), BlockWidth(g, 1), g.width)
    ensures forall k :: 0 <= k < |xs| ==> 0 <= xs[k] < size
  {
    BlockNumbersPositive(g, 1);
    SpanBounds(i, BlockHeightNumber(g, 1), BlockHeight(g, 1), g.height);
    SpanBounds(j, BlockWidthNumber(g, 1), BlockWidth(g, 1), g.width);
    var r0 := i * BlockHeight(g, 1);
    var c0 := j * BlockWidth(g, 1);
    RegionBinsBounded(bins, r0, RowEnd(g, i), c0, ColumnEnd(g, j), size);
    RegionBins(bins, r0, RowEnd(g, i), c0, ColumnEnd(g, j))
  }

  /** The level-1 blocks: pixel count and histogram of each rectangle. */
  function FirstLevel(g: Geometry, bins: seq<seq<int>>, size: int): (lv: Level)
    requires Valid(g) && ValidBins(g, bins, size) && size >= 0
    ensures IsGrid(lv.pixels, BlockHeightNumber(g, 1), BlockWidthNumber(g, 1))
    ensures IsGrid(lv.histograms, BlockHeightNumber(g, 1), BlockWidthNumber(g, 1))
  {
    Level(FirstLevelPixels(g, bins, size), FirstLevelHistograms(g, bins, size))
  }

  function FirstLevelPixels(g: Geometry, bins: seq<seq<int>>, size: int): (p: seq<seq<int>>)
    requires Valid(g) && ValidBins(g, bins, size)
    ensures IsGrid(p, BlockHeightNumber(g, 1), BlockWidthNumber(g, 1))
  {
    var n := BlockHeightNumber(g, 1);
    var m := BlockWidthNumber(g, 1);
    seq(n, i requires 0 <= i < n => seq(m, j requires 0 <= j < m => |BlockRegion(g, bins, size, i, j)|))
  }

  function FirstLevelHistograms(g: Geometry, bins: seq<seq<int>>, size: int): (hs: seq<seq<seq<int>>>)
    requires Valid(g) && ValidBins(g, bins, size) && size >= 0
    ensures IsGrid(hs, BlockHeightNumber(g, 1), BlockWidthNumber(g, 1))
  {
    var n := BlockHeightNumber(g, 1);
    var m := BlockWidthNumber(g, 1);
    seq(n, i requires 0 <= i < n => seq(m, j requires 0 <= j < m => Tally(BlockRegion(g, bins, size, i, j), size)))
  }

  // ---------------------------------------------------------------------
  // Levels 2 and up: aggregating children.
  // ---------------------------------------------------------------------

  /** The children of block (i, j) of an H x W level, in a level below of
      Hb x Wb blocks, in the order they are accumulated: the 2 x 2 square,
      then in the last block row the extra child row, in the last block
      column the extra child column, and in the last block the extra corner. */
  function Children<T>(below: seq<seq<T>>, hb: int, wb: int, h: int, w: int, i: int, j: int): (cs: seq<T>)
    requires IsGrid(below, hb, wb) && 2 * h <= hb && 2 * w <= wb
    requires 0 <= i < h && 0 <= j < w
    ensures 4 <= |cs| <= 9
  {
    var extraRow := i == h - 1 && 2 * i + 2 < hb;
    var extraColumn := j == w - 1 && 2 * j + 2 < wb;
    [below[2 * i][2 * j], below[2 * i + 1][2 * j], below[2 * i][2 * j + 1], below[2 * i + 1][2 * j + 1]]
    + (if extraRow then [below[2 * i + 2][2 * j], below[2 * i + 2][2 * j + 1]] else [])
    + (if extraColumn then [below[2 * i][2 * j + 2], below[2 * i + 1][2 * j + 2]] else [])
    + (if extraRow && extraColumn then [below[2 * i + 2][2 * j + 2]] else [])
  }

  /** Bin-wise sum of a list of histograms of `size` bins. */
  function SumHistograms(hs: seq<seq<int>>, size: int): (r: seq<int>)
    requires size >= 0 && forall k :: 0 <= k < |hs| ==> |hs[k]| == size
    ensures |r| == size
  {
    if |hs| == 0 then seq(size, b => 0)
    else AddBins(SumHistograms(hs[..|hs| - 1], size), hs[|hs| - 1])
  }

  /** Summing histograms conserves their totals and keeps entries non-negative. */
  lemma {:induction false} SumHistogramsTotal(hs: seq<seq<int>>, counts: seq<int>, size: int)
    requires size >= 0 && |counts| == |hs|
    requires forall k :: 0 <= k < |hs| ==> |hs[k]| == size && Sum(hs[k]) == counts[k]
    requires forall k, b :: 0 <= k < |hs| && 0 <= b < |hs[k]| ==> hs[k][b] >= 0
    ensures Sum(SumHistograms(hs, size)) == Sum(counts)
    ensures forall b :: 0 <= b < size ==> SumHistograms(hs, size)[b] >= 0
    decreases |hs|
  {
    if |hs| == 0 {
      ZerosSum(size);
    } else {
      var n := |hs| - 1;
      var prefix := hs[..n];
      assert forall k :: 0 <= k < n ==> prefix[k] == hs[k];
      SumHistogramsTotal(prefix, counts[..n], size);
      SumAddBins(SumHistograms(prefix, size), hs[n]);
      assert hs[n] == hs[|hs| - 1];
    }
  }

  /** The level above `below`, of h x w blocks. */
  function NextLevel(below: Level, hb: int, wb: int, h: int, w: int, size: int): (lv: Level)
    requires size >= 0 && 2 * h <= hb && 2 * w <= wb && h >= 0 && w >= 0
    requires IsGrid(below.pixels, hb, wb) && IsGrid(below.histograms, hb, wb)
    requires forall r, c :: 0 <= r < hb && 0 <= c < wb ==> |below.histograms[r][c]| == size
    ensures IsGrid(lv.pixels, h, w) && IsGrid(lv.histograms, h, w)
  {
    Level(
      seq(h, i requires 0 <= i < h => seq(w, j requires 0 <= j < w =>
        Sum(Children(below.pixels, hb, wb, h, w, i, j)))),
      seq(h, i requires 0 <= i < h => seq(w, j requires 0 <= j < w =>
        ChildrenHistogram(below.histograms, hb, wb, h, w, size, i, j))))
  }

  function ChildrenHistogram(hists: seq<seq<seq<int>>>, hb: int, wb: int, h: int, w: int, size: int, i: int, j: int): (r: seq<int>)
    requires size >= 0 && IsGrid(hists, hb, wb) && 2 * h <= hb && 2 * w <= wb
    requires forall r, c :: 0 <= r < hb && 0 <= c < wb ==> |hists[r][c]| == size
    requires 0 <= i < h && 0 <= j < w
    ensures |r| == size
  {
    var cs := Children(hists, hb, wb, h, w, i, j);
    assert forall k :: 0 <= k < |cs| ==> cs[k] in ChildSet(hists, hb, wb);
    SumHistograms(cs, size)
  }

  ghost function ChildSet<T>(g: seq<seq<T>>, hb: int, wb: int): set<T>
    requires IsGrid(g, hb, wb)
  {
    set r, c | 0 <= r < hb && 0 <= c < wb :: g[r][c]
  }

  // ---------------------------------------------------------------------
  // The whole pyramid and its invariants.
  // ---------------------------------------------------------------------

  /** Level `l` has one pixel count and one `size`-bin histogram per block. */
  predicate Shaped(g: Geometry, l: int, lv: Level, size: int)
    requires Valid(g) && IsLevel(g, l)
  {
    && IsGrid(lv.pixels, BlockHeightNumber(g, l), BlockWidthNumber(g, l))
    && IsGrid(lv.histograms, BlockHeightNumber(g, l), BlockWidthNumber(g, l))
    && forall i, j :: 0 <= i < |lv.histograms| && 0 <= j < |lv.histograms[i]| ==> |lv.histograms[i][j]| == size
  }

  /** Rows of block row i and columns of block column j at level l. */
  function RowSpan(g: Geometry, l: int, i: int): int
    requires Valid(g) && IsLevel(g, l)
  {
    Span(i, BlockHeightNumber(g, l), BlockHeight(g, l), g.height)
  }

  function ColumnSpan(g: Geometry, l: int, j: int): int
    requires Valid(g) && IsLevel(g, l)
  {
    Span(j, BlockWidthNumber(g, l), BlockWidth(g, l), g.width)
  }

  /** Each block counts exactly the pixels of its rectangle, and its
      histogram has non-negative bins adding up to that count. */
  predicate WellFormed(g: Geometry, l: int, lv: Level, size: int)
    requires Valid(g) && IsLevel(g, l)
  {
    && Shaped(g, l, lv, size)
    && (forall i, j :: 0 <= i < BlockHeightNumber(g, l) && 0 <= j < BlockWidthNumber(g, l) ==>
          lv.pixels[i][j] == RowSpan(g, l, i) * ColumnSpan(g, l, j))
    && (forall i, j :: 0 <= i < BlockHeightNumber(g, l) && 0 <= j < BlockWidthNumber(g, l) ==>
          Sum(lv.histograms[i][j]) == lv.pixels[i][j])
    && (forall i, j, b :: 0 <= i < BlockHeightNumber(g, l) && 0 <= j < BlockWidthNumber(g, l) && 0 <= b < size ==>
          lv.histograms[i][j][b] >= 0)
  }

  /** Levels 1 to `level` of the pyramid, lowest first. */
  function Build(g: Geometry, bins: seq<seq<int>>, size: int, level: int): (p: seq<Level>)
    requires Valid(g) && ValidBins(g, bins, size) && size >= 0 && IsLevel(g, level)
    ensures |p| == level
    ensures forall k :: 0 <= k < level ==> Shaped(g, k + 1, p[k], size)
    decreases level
  {
    if level == 1 then
      FirstLevelShaped(g, bins, size);
      [FirstLevel(g, bins, size)]
    else
      var below := Build(g, bins, size, level - 1);
      NextLevelShaped(g, level - 1, below[level - 2], size);
      below + [Above(g, level - 1, below[level - 2], size)]
  }

  /** The level above level l, aggregated from `below`. */
  function Above(g: Geometry, l: int, below: Level, size: int): Level
    requires Valid(g) && IsLevel(g, l) && l < g.levels && size >= 0
    requires Shaped(g, l, below, size)
  {
    BlockNumberHalves(g, l);
    BlockNumbersPositive(g, l + 1);
    NextLevel(below,
      BlockHeightNumber(g, l), BlockWidthNumber(g, l),
      BlockHeightNumber(g, l + 1), BlockWidthNumber(g, l + 1), size)
  }

  lemma FirstLevelShaped(g: Geometry, bins: seq<seq<int>>, size: int)
    requires Valid(g) && ValidBins(g, bins, size) && size >= 0
    ensures Shaped(g, 1, FirstLevel(g, bins, size), size)
  {
  }

  lemma NextLevelShaped(g: Geometry, l: int, below: Level, size: int)
    requires Valid(g) && IsLevel(g, l) && l < g.levels && size >= 0
    requires Shaped(g, l, below, size)
    ensures Shaped(g, l + 1, Above(g, l, below, size), size)
  {
  }

  lemma FirstLevelWellFormed(g: Geometry, bins: seq<seq<int>>, size: int)
    requires Valid(g) && ValidBins(g, bins, size) && size >= 0
    ensures WellFormed(g, 1, FirstLevel(g, bins, size), size)
  {
    var lv := FirstLevel(g, bins, size);
    forall i, j | 0 <= i < BlockHeightNumber(g, 1) && 0 <= j < BlockWidthNumber(g, 1)
      ensures Sum(lv.histograms[i][j]) == lv.pixels[i][j]
      ensures forall b :: 0 <= b < size ==> lv.histograms[i][j][b] >= 0
    {
      TallyTotal(BlockRegion(g, bins, size, i, j), size);
    }
  }

  lemma SumSingle(x: int)
    ensures Sum([x]) == x
  {
    assert [x][..0] == [];
  }

  lemma SumPair(x: int, y: int)
    ensures Sum([x, y]) == x + y
  {
    assert [x, y][..1] == [x];
    SumSingle(x);
  }

  lemma SumQuad(x: int, y: int, z: int, w: int)
    ensures Sum([x, y, z, w]) == x + y + z + w
  {
    assert [x, y, z, w] == [x, y] + [z, w];
    SumAppend([x, y], [z, w]);
    SumPair(x, y);
    SumPair(z, w);
  }

  lemma Expand(a0: int, a1: int, a2: int, b0: int, b1: int, b2: int)
    ensures (a0 + a1 + a2) * (b0 + b1 + b2)
      == a0 * b0 + a1 * b0 + a0 * b1 + a1 * b1 + (a2 * b0 + a2 * b1) + (a0 * b2 + a1 * b2) + a2 * b2
  {
  }

  /** When every block below is a product of a row weight and a column
      weight, a parent's children add up to the product of the children's
      row weights and column weights. */
  lemma ChildrenProduct(below: seq<seq<int>>, rows: seq<int>, cols: seq<int>, h: int, w: int, i: int, j: int)
    requires IsGrid(below, |rows|, |cols|) && 2 * h <= |rows| && 2 * w <= |cols|
    requires 0 <= i < h && 0 <= j < w
    requires forall r, c :: 0 <= r < |rows| && 0 <= c < |cols| ==> below[r][c] == rows[r] * cols[c]
    ensures Sum(Children(below, |rows|, |cols|, h, w, i, j))
      == (rows[2 * i] + rows[2 * i + 1] + (if i == h - 1 && 2 * i + 2 < |rows| then rows[2 * i + 2] else 0))
       * (cols[2 * j] + cols[2 * j + 1] + (if j == w - 1 && 2 * j + 2 < |cols| then cols[2 * j + 2] else 0))
  {
    var hb := |rows|;
    var wb := |cols|;
    var extraRow := i == h - 1 && 2 * i + 2 < hb;
    var extraColumn := j == w - 1 && 2 * j + 2 < wb;
    var a0, a1 := rows[2 * i], rows[2 * i + 1];
    var b0, b1 := cols[2 * j], cols[2 * j + 1];
    var a2 := if extraRow then rows[2 * i + 2] else 0;
    var b2 := if extraColumn then cols[2 * j + 2] else 0;
    var square := [below[2 * i][2 * j], below[2 * i + 1][2 * j], below[2 * i][2 * j + 1], below[2 * i + 1][2 * j + 1]];
    var rowExtra := if extraRow then [below[2 * i + 2][2 * j], below[2 * i + 2][2 * j + 1]] else [];
    var columnExtra := if extraColumn then [below[2 * i][2 * j + 2], below[2 * i + 1][2 * j + 2]] else [];
    var corner := if extraRow && extraColumn then [below[2 * i + 2][2 * j + 2]] else [];
    assert Children(below, hb, wb, h, w, i, j) == square + rowExtra + columnExtra + corner;
    SumQuad(a0 * b0, a1 * b0, a0 * b1, a1 * b1);
    assert Sum(square) == a0 * b0 + a1 * b0 + a0 * b1 + a1 * b1;
    if extraRow {
      SumPair(a2 * b0, a2 * b1);
    }
    assert Sum(rowExtra) == a2 * b0 + a2 * b1;
    if extraColumn {
      SumPair(a0 * b2, a1 * b2);
    }
    assert Sum(columnExtra) == a0 * b2 + a1 * b2;
    if extraRow && extraColumn {
      SumSingle(a2 * b2);
    }
    assert Sum(corner) == a2 * b2;
    SumAppend(square, rowExtra);
    SumAppend(square + rowExtra, columnExtra);
    SumAppend(square + rowExtra + columnExtra, corner);
    Expand(a0, a1, a2, b0, b1, b2);
  }

  /** The children of a block in the pixel-count grid and in the histogram
      grid line up: a child's histogram total is that child's count. */
  lemma ChildrenAligned(hists: seq<seq<seq<int>>>, pixels: seq<seq<int>>, hb: int, wb: int, h: int, w: int, i: int, j: int)
    requires IsGrid(hists, hb, wb) && IsGrid(pixels, hb, wb) && 2 * h <= hb && 2 * w <= wb
    requires 0 <= i < h && 0 <= j < w
    requires forall r, c :: 0 <= r < hb && 0 <= c < wb ==> Sum(hists[r][c]) == pixels[r][c]
    ensures |Children(hists, hb, wb, h, w, i, j)| == |Children(pixels, hb, wb, h, w, i, j)|
    ensures forall k :: 0 <= k < |Children(hists, hb, wb, h, w, i, j)| ==>
      Sum(Children(hists, hb, wb, h, w, i, j)[k]) == Children(pixels, hb, wb, h, w, i, j)[k]
  {
  }

  /** Aggregating a well-formed level gives a well-formed level above. */
  lemma NextLevelWellFormed(g: Geometry, l: int, below: Level, size: int)
    requires Valid(g) && IsLevel(g, l) && l < g.levels && size >= 0
    requires WellFormed(g, l, below, size)
    ensures WellFormed(g, l + 1, Above(g, l, below, size), size)
  {
    NextLevelShaped(g, l, below, size);
    var top := Above(g, l, below, size);
    forall i, j | 0 <= i < BlockHeightNumber(g, l + 1) && 0 <= j < BlockWidthNumber(g, l + 1)
      ensures top.pixels[i][j] == RowSpan(g, l + 1, i) * ColumnSpan(g, l + 1, j)
      ensures Sum(top.histograms[i][j]) == top.pixels[i][j]
      ensures forall b :: 0 <= b < size ==> top.histograms[i][j][b] >= 0
    {
      AboveBlockWellFormed(g, l, below, size, i, j);
    }
  }

  lemma AboveBlockWellFormed(g: Geometry, l: int, below: Level, size: int, i: int, j: int)
    requires Valid(g) && IsLevel(g, l) && l < g.levels && size >= 0
    requires WellFormed(g, l, below, size)
    requires 0 <= i < BlockHeightNumber(g, l + 1) && 0 <= j < BlockWidthNumber(g, l + 1)
    ensures Shaped(g, l + 1, Above(g, l, below, size), size)
    ensures Above(g, l, below, size).pixels[i][j] == RowSpan(g, l + 1, i) * ColumnSpan(g, l + 1, j)
    ensures Sum(Above(g, l, below, size).histograms[i][j]) == Above(g, l, below, size).pixels[i][j]
    ensures forall b :: 0 <= b < size ==> Above(g, l, below, size).histograms[i][j][b] >= 0
  {
    NextLevelShaped(g, l, below, size);
    BlockNumberHalves(g, l);
    var hb, wb := BlockHeightNumber(g, l), BlockWidthNumber(g, l);
    var h, w := BlockHeightNumber(g, l + 1), BlockWidthNumber(g, l + 1);
    AboveBlockArea(g, l, below, size, i, j);
    NextBlockConserves(below, hb, wb, h, w, size, i, j);
  }

  /** A block above counts the pixels of its rectangle. */
  lemma AboveBlockArea(g: Geometry, l: int, below: Level, size: int, i: int, j: int)
    requires Valid(g) && IsLevel(g, l) && l < g.levels && size >= 0
    requires WellFormed(g, l, below, size)
    requires 0 <= i < BlockHeightNumber(g, l + 1) && 0 <= j < BlockWidthNumber(g, l + 1)
    ensures Shaped(g, l + 1, Above(g, l, below, size), size)
    ensures Above(g, l, below, size).pixels[i][j] == RowSpan(g, l + 1, i) * ColumnSpan(g, l + 1, j)
  {
    NextLevelShaped(g, l, below, size);
    BlockNumberHalves(g, l);
    BlockSizeDoubles(g, l);
    var hb, wb := BlockHeightNumber(g, l), BlockWidthNumber(g, l);
    var h, w := BlockHeightNumber(g, l + 1), BlockWidthNumber(g, l + 1);
    var rows := seq(hb, r => RowSpan(g, l, r));
    var cols := seq(wb, c => ColumnSpan(g, l, c));
    assert Above(g, l, below, size).pixels[i][j] == Sum(Children(below.pixels, hb, wb, h, w, i, j));
    ChildrenProduct(below.pixels, rows, cols, h, w, i, j);
    ChildSpans(i, h, hb, BlockHeight(g, l), g.height);
    ChildSpans(j, w, wb, BlockWidth(g, l), g.width);
  }

  /** Aggregation conserves: a block's histogram above adds up to its count
      and has non-negative bins, when the blocks below do. */
  lemma NextBlockConserves(below: Level, hb: int, wb: int, h: int, w: int, size: int, i: int, j: int)
    requires size >= 0 && 2 * h <= hb && 2 * w <= wb && 0 <= i < h && 0 <= j < w
    requires IsGrid(below.pixels, hb, wb) && IsGrid(below.histograms, hb, wb)
    requires forall r, c :: 0 <= r < hb && 0 <= c < wb ==> |below.histograms[r][c]| == size
    requires forall r, c :: 0 <= r < hb && 0 <= c < wb ==> Sum(below.histograms[r][c]) == below.pixels[r][c]
    requires forall r, c, b :: 0 <= r < hb && 0 <= c < wb && 0 <= b < size ==> below.histograms[r][c][b] >= 0
    ensures Sum(NextLevel(below, hb, wb, h, w, size).histograms[i][j]) == NextLevel(below, hb, wb, h, w, size).pixels[i][j]
    ensures forall b :: 0 <= b < size ==> NextLevel(below, hb, wb, h, w, size).histograms[i][j][b] >= 0
  {
    ChildrenAligned(below.histograms, below.pixels, hb, wb, h, w, i, j);
    ChildrenNonNegative(below.histograms, hb, wb, h, w, size, i, j);
    SumHistogramsTotal(Children(below.histograms, hb, wb, h, w, i, j), Children(below.pixels, hb, wb, h, w, i, j), size);
  }

  lemma ChildrenNonNegative(hists: seq<seq<seq<int>>>, hb: int, wb: int, h: int, w: int, size: int, i: int, j: int)
    requires IsGrid(hists, hb, wb) && 2 * h <= hb && 2 * w <= wb
    requires 0 <= i < h && 0 <= j < w
    requires forall r, c :: 0 <= r < hb && 0 <= c < wb ==> |hists[r][c]| == size
    requires forall r, c, b :: 0 <= r < hb && 0 <= c < wb && 0 <= b < size ==> hists[r][c][b] >= 0
    ensures forall k :: 0 <= k < |Children(hists, hb, wb, h, w, i, j)| ==> |Children(hists, hb, wb, h, w, i, j)[k]| == size
    ensures forall k, b :: 0 <= k < |Children(hists, hb, wb, h, w, i, j)| && 0 <= b < |Children(hists, hb, wb, h, w, i, j)[k]| ==>
      Children(hists, hb, wb, h, w, i, j)[k][b] >= 0
  {
  }

  /** The topmost level built is well formed. */
  lemma {:induction false} TopWellFormed(g: Geometry, bins: seq<seq<int>>, size: int, level: int)
    requires Valid(g) && ValidBins(g, bins, size) && size >= 0 && IsLevel(g, level)
    ensures WellFormed(g, level, Build(g, bins, size, level)[level - 1], size)
    decreases level
  {
    if level == 1 {
      FirstLevelWellFormed(g, bins, size);
    } else {
      TopWellFormed(g, bins, size, level - 1);
      BuildStep(g, bins, size, level);
    }
  }

  /** Building one more level on a well-formed top gives a well-formed top. */
  lemma BuildStep(g: Geometry, bins: seq<seq<int>>, size: int, level: int)
    requires Valid(g) && ValidBins(g, bins, size) && size >= 0 && IsLevel(g, level) && level > 1
    requires WellFormed(g, level - 1, Build(g, bins, size, level - 1)[level - 2], size)
    ensures WellFormed(g, level, Build(g, bins, size, level)[level - 1], size)
  {
    var below := Build(g, bins, size, level - 1)[level - 2];
    NextLevelWellFormed(g, level - 1, below, size);
    assert Build(g, bins, size, level)[level - 1] == Above(g, level - 1, below, size);
  }

  /** Building further up leaves the levels already built unchanged. */
  lemma {:induction false} BuildStable(g: Geometry, bins: seq<seq<int>>, size: int, level: int, k: int)
    requires Valid(g) && ValidBins(g, bins, size) && size >= 0 && IsLevel(g, level)
    requires 0 <= k < level
    ensures Build(g, bins, size, level)[k] == Build(g, bins, size, k + 1)[k]
    decreases level
  {
    if k < level - 1 {
      BuildStable(g, bins, size, level - 1, k);
    }
  }

  /** Every level of the pyramid is well formed. */
  lemma BuildWellFormed(g: Geometry, bins: seq<seq<int>>, size: int, level: int)
    requires Valid(g) && ValidBins(g, bins, size) && size >= 0 && IsLevel(g, level)
    ensures forall k :: 0 <= k < level ==> WellFormed(g, k + 1, Build(g, bins, size, level)[k], size)
  {
    forall k | 0 <= k < level
      ensures WellFormed(g, k + 1, Build(g, bins, size, level)[k], size)
    {
      BuildLevelWellFormed(g, bins, size, level, k);
    }
  }

  lemma BuildLevelWellFormed(g: Geometry, bins: seq<seq<int>>, size: int, level: int, k: int)
    requires Valid(g) && ValidBins(g, bins, size) && size >= 0 && IsLevel(g, level) && 0 <= k < level
    ensures WellFormed(g, k + 1, Build(g, bins, size, level)[k], size)
  {
    BuildStable(g, bins, size, level, k);
    TopWellFormed(g, bins, size, k + 1);
  }

  /** A block covers at least a full block of pixels, and no histogram bin
      exceeds the block's count. */
  lemma WellFormedBounds(g: Geometry, l: int, lv: Level, size: int, i: int, j: int)
    requires Valid(g) && IsLevel(g, l) && WellFormed(g, l, lv, size)
    requires 0 <= i < BlockHeightNumber(g, l) && 0 <= j < BlockWidthNumber(g, l)
    ensures 1 <= BlockHeight(g, l) * BlockWidth(g, l) <= lv.pixels[i][j]
    ensures forall b :: 0 <= b < size ==> 0 <= lv.histograms[i][j][b] <= lv.pixels[i][j]
  {
    BlockNumbersPositive(g, l);
    SpanBounds(i, BlockHeightNumber(g, l), BlockHeight(g, l), g.height);
    SpanBounds(j, BlockWidthNumber(g, l), BlockWidth(g, l), g.width);
    assert lv.pixels[i][j] == RowSpan(g, l, i) * ColumnSpan(g, l, j);
    AreaBound(BlockHeight(g, l), BlockWidth(g, l), RowSpan(g, l, i), ColumnSpan(g, l, j));
    BinsBound(lv.histograms[i][j], lv.pixels[i][j]);
  }

  /** A rectangle at least h by w covers at least h * w >= 1 cells. */
  lemma AreaBound(h: int, w: int, rows: int, cols: int)
    requires 1 <= h <= rows && 1 <= w <= cols
    ensures 1 <= h * w <= rows * cols
  {
    MulMonotone(h, w, cols);
    MulMonotone(cols, h, rows);
    MulMonotone(h, 1, w);
  }

  /** No bin of a histogram with non-negative bins exceeds its total. */
  lemma BinsBound(hist: seq<int>, total: int)
    requires forall b :: 0 <= b < |hist| ==> hist[b] >= 0
    requires Sum(hist) == total
    ensures forall b :: 0 <= b < |hist| ==> 0 <= hist[b] <= total
  {
    SumNonNegative(hist);
  }

  lemma SumScale(x: int, b: seq<int>)
    ensures Sum(seq(|b|, c requires 0 <= c < |b| => x * b[c])) == x * Sum(b)
    decreases |b|
  {
    if |b| > 0 {
      var n := |b| - 1;
      assert seq(|b|, c requires 0 <= c < |b| => x * b[c])[..n] == seq(n, c requires 0 <= c < n => x * b[..n][c]);
      SumScale(x, b[..n]);
    }
  }

  /** The grid of products of row and column weights totals the product of
      the weight sums. */
  lemma {:induction false} GridTotalProduct(a: seq<int>, b: seq<int>)
    ensures GridTotal(seq(|a|, r requires 0 <= r < |a| => seq(|b|, c requires 0 <= c < |b| => a[r] * b[c])))
      == Sum(a) * Sum(b)
    decreases |a|
  {
    if |a| > 0 {
      var n := |a| - 1;
      var grid := seq(|a|, r requires 0 <= r < |a| => seq(|b|, c requires 0 <= c < |b| => a[r] * b[c]));
      assert grid[..n] == seq(n, r requires 0 <= r < n => seq(|b|, c requires 0 <= c < |b| => a[..n][r] * b[c]));
      GridTotalProduct(a[..n], b);
      SumScale(a[n], b);
      assert grid[n] == seq(|b|, c requires 0 <= c < |b| => a[n] * b[c]);
    }
  }

  /** A grid whose every entry is a row weight times a column weight totals
      the product of the weight sums. */
  lemma ProductGridTotal(pixels: seq<seq<int>>, rows: seq<int>, cols: seq<int>)
    requires IsGrid(pixels, |rows|, |cols|)
    requires forall r, c :: 0 <= r < |rows| && 0 <= c < |cols| ==> pixels[r][c] == rows[r] * cols[c]
    ensures GridTotal(pixels) == Sum(rows) * Sum(cols)
  {
    var grid := seq(|rows|, r requires 0 <= r < |rows| => seq(|cols|, c requires 0 <= c < |cols| => rows[r] * cols[c]));
    assert forall r :: 0 <= r < |rows| ==> pixels[r] == grid[r];
    assert pixels == grid;
    GridTotalProduct(rows, cols);
  }

  /** The blocks of a well-formed level tile the image: their counts add up
      to width * height. */
  lemma WellFormedTotal(g: Geometry, l: int, lv: Level, size: int)
    requires Valid(g) && IsLevel(g, l) && WellFormed(g, l, lv, size)
    ensures GridTotal(lv.pixels) == g.width * g.height
  {
    BlockNumbersPositive(g, l);
    var h, w := BlockHeightNumber(g, l), BlockWidthNumber(g, l);
    var rows := seq(h, r => Span(r, h, BlockHeight(g, l), g.height));
    var cols := seq(w, c => Span(c, w, BlockWidth(g, l), g.width));
    forall r, c | 0 <= r < h && 0 <= c < w
      ensures lv.pixels[r][c] == rows[r] * cols[c]
    {
      assert lv.pixels[r][c] == RowSpan(g, l, r) * ColumnSpan(g, l, c);
    }
    ProductGridTotal(lv.pixels, rows, cols);
    SpanTotal(h, BlockHeight(g, l), g.height);
    SpanTotal(w, BlockWidth(g, l), g.width);
  }
}
