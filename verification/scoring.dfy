/**
  Scores that decide moves, over exact reals: the histogram-intersection
  scores of a block against its own and a neighbouring superpixel, the
  probability of a pixel's bin under a superpixel, and the smoothing prior
  that weighs a pixel score by how many labels of each superpixel lie
  around the pixel.
 */
module Scoring {
  import opened Grids

  function Ratio(a: int, b: int): real
    requires b > 0
  {
    a as real / b as real
  }

  function MinReal(a: real, b: real): real {
    if a <= b then a else b
  }

  // ---------------------------------------------------------------------
  // Block scores.
  // ---------------------------------------------------------------------

  /** Intersection of the block's histogram with what is left of its own
      superpixel once the block is taken out, over the bins where the block
      is present and the superpixel holds more than the block. */
  function CurrentBlockScore(block: seq<int>, superpixel: seq<int>, blockPixels: int, superpixelPixels: int): real
    requires |block| == |superpixel| && blockPixels > 0 && superpixelPixels > blockPixels
  {
    if |block| == 0 then 0.0
    else
      var k := |block| - 1;
      CurrentBlockScore(block[..k], superpixel[..k], blockPixels, superpixelPixels)
      + (if block[k] > 0 && superpixel[k] > block[k]
         then MinReal(Ratio(superpixel[k] - block[k], superpixelPixels - blockPixels), Ratio(block[k], blockPixels))
         else 0.0)
  }

  /** Intersection of the block's histogram with a neighbouring superpixel's,
      over the bins where both are present. */
  function ProposedBlockScore(block: seq<int>, superpixel: seq<int>, blockPixels: int, superpixelPixels: int): real
    requires |block| == |superpixel| && blockPixels > 0 && superpixelPixels > 0
  {
    if |block| == 0 then 0.0
    else
      var k := |block| - 1;
      ProposedBlockScore(block[..k], superpixel[..k], blockPixels, superpixelPixels)
      + (if block[k] > 0 && superpixel[k] > 0
         then MinReal(Ratio(superpixel[k], superpixelPixels), Ratio(block[k], blockPixels))
         else 0.0)
  }

  lemma RatioAdd(a: int, c: int, b: int)
    requires b > 0
    ensures Ratio(a, b) + Ratio(c, b) == Ratio(a + c, b)
  {
  }

  /** Both intersections lie between 0 and the share of the block's bins
      counted so far; for a histogram adding up to the block's count that
      is between 0 and 1. */
  lemma {:induction false} BlockScoresBounded(block: seq<int>, superpixel: seq<int>, blockPixels: int, superpixelPixels: int)
    requires |block| == |superpixel| && blockPixels > 0 && superpixelPixels > blockPixels
    requires forall k :: 0 <= k < |block| ==> block[k] >= 0
    ensures 0.0 <= CurrentBlockScore(block, superpixel, blockPixels, superpixelPixels) <= Ratio(Sum(block), blockPixels)
    ensures 0.0 <= ProposedBlockScore(block, superpixel, blockPixels, superpixelPixels) <= Ratio(Sum(block), blockPixels)
    decreases |block|
  {
    if |block| > 0 {
      var k := |block| - 1;
      BlockScoresBounded(block[..k], superpixel[..k], blockPixels, superpixelPixels);
      RatioAdd(Sum(block[..k]), block[k], blockPixels);
    }
  }

  /** With the block's histogram adding up to its count, both block scores
      lie in [0, 1]. */
  lemma BlockScoresInUnitRange(block: seq<int>, superpixel: seq<int>, blockPixels: int, superpixelPixels: int)
    requires |block| == |superpixel| && blockPixels > 0 && superpixelPixels > blockPixels
    requires forall k :: 0 <= k < |block| ==> block[k] >= 0
    requires Sum(block) == blockPixels
    ensures 0.0 <= CurrentBlockScore(block, superpixel, blockPixels, superpixelPixels) <= 1.0
    ensures 0.0 <= ProposedBlockScore(block, superpixel, blockPixels, superpixelPixels) <= 1.0
  {
    BlockScoresBounded(block, superpixel, blockPixels, superpixelPixels);
    RatioSelf(blockPixels);
  }

  lemma RatioSelf(n: int)
    requires n > 0
    ensures Ratio(n, n) == 1.0
  {
  }

  // ---------------------------------------------------------------------
  // Pixel scores.
  // ---------------------------------------------------------------------

  /** Share of the superpixel's pixels that fall into the pixel's bin. */
  function PixelScore(histogram: seq<int>, bin: int, pixels: int): (p: real)
    requires 0 <= bin < |histogram| && pixels > 0
    ensures 0 <= histogram[bin] <= pixels ==> 0.0 <= p <= 1.0
    ensures p * (pixels as real) == histogram[bin] as real
  {
    Ratio(histogram[bin], pixels)
  }

  // ---------------------------------------------------------------------
  // Smoothing prior.
  // ---------------------------------------------------------------------

  /** A rectangle of cells [rowStart, rowEnd) x [columnStart, columnEnd). */
  datatype Rect = Rect(rowStart: int, rowEnd: int, columnStart: int, columnEnd: int)

  predicate InRect(r: Rect, i: int, j: int) {
    r.rowStart <= i < r.rowEnd && r.columnStart <= j < r.columnEnd
  }

  /** The window around the moving cell and its target, widened by the
      neighbourhood size and clamped to the rows x cols working grid. */
  function SmoothingWindow(iFrom: int, jFrom: int, iTo: int, jTo: int, size: int, rows: int, cols: int): (r: Rect)
    requires size >= 0
    requires 0 <= iFrom < rows && 0 <= iTo < rows && 0 <= jFrom < cols && 0 <= jTo < cols
    ensures 0 <= r.rowStart <= r.rowEnd <= rows && 0 <= r.columnStart <= r.columnEnd <= cols
    ensures InRect(r, iFrom, jFrom) && InRect(r, iTo, jTo)
    ensures forall i, j :: InRect(r, i, j) <==>
      (&& 0 <= i < rows && 0 <= j < cols
       && Min(iFrom, iTo) - size <= i <= Max(iFrom, iTo) + size
       && Min(jFrom, jTo) - size <= j <= Max(jFrom, jTo) + size)
  {
    Rect(Max(0, Min(iFrom, iTo) - size), Min(rows, Max(iFrom, iTo) + size + 1),
         Max(0, Min(jFrom, jTo) - size), Min(cols, Max(jFrom, jTo) + size + 1))
  }

  /** How many of the cells row[c0..c1) equal v. */
  function RowCount(row: seq<int>, c0: int, c1: int, v: int): int
    requires 0 <= c0 <= c1 <= |row|
    decreases c1 - c0
  {
    if c0 == c1 then 0 else RowCount(row, c0, c1 - 1, v) + (if row[c1 - 1] == v then 1 else 0)
  }

  /** How many cells of rectangle r hold label v. */
  function RectCount(labels: seq<seq<int>>, r: Rect, v: int): int
    requires 0 <= r.rowStart <= r.rowEnd <= |labels| && 0 <= r.columnStart <= r.columnEnd
    requires forall i :: 0 <= i < |labels| ==> r.columnEnd <= |labels[i]|
    decreases r.rowEnd - r.rowStart
  {
    if r.rowStart == r.rowEnd then 0
    else RectCount(labels, r.(rowEnd := r.rowEnd - 1), v) + RowCount(labels[r.rowEnd - 1], r.columnStart, r.columnEnd, v)
  }

  /** Counts the cells of the window holding the moving cell's label and,
      among the others, those holding the target's label, row by row. */
  method WindowCounts(labels: seq<seq<int>>, rows: int, cols: int, r: Rect, labelFrom: int, labelTo: int)
    returns (countFrom: int, countTo: int)
    requires IsGrid(labels, rows, cols)
    requires 0 <= r.rowStart <= r.rowEnd <= rows && 0 <= r.columnStart <= r.columnEnd <= cols
    ensures countFrom == RectCount(labels, r, labelFrom)
    ensures countTo == (if labelTo == labelFrom then 0 else RectCount(labels, r, labelTo))
  {
    countFrom, countTo := 0, 0;
    var i := r.rowStart;
    while i < r.rowEnd
      invariant r.rowStart <= i <= r.rowEnd
      invariant countFrom == RectCount(labels, r.(rowEnd := i), labelFrom)
      invariant countTo == (if labelTo == labelFrom then 0 else RectCount(labels, r.(rowEnd := i), labelTo))
    {
      var j := r.columnStart;
      var rowFrom, rowTo := 0, 0;
      while j < r.columnEnd
        invariant r.columnStart <= j <= r.columnEnd
        invariant rowFrom == RowCount(labels[i], r.columnStart, j, labelFrom)
        invariant rowTo == (if labelTo == labelFrom then 0 else RowCount(labels[i], r.columnStart, j, labelTo))
      {
        if labels[i][j] == labelFrom {
          rowFrom := rowFrom + 1;
        } else if labels[i][j] == labelTo {
          rowTo := rowTo + 1;
        }
        j := j + 1;
      }
      countFrom, countTo := countFrom + rowFrom, countTo + rowTo;
      i := i + 1;
    }
    assert r.(rowEnd := r.rowEnd) == r;
  }

  /** Two different labels together occupy at most the cells of a row span. */
  lemma {:induction false} RowCountsBounded(row: seq<int>, c0: int, c1: int, u: int, v: int)
    requires 0 <= c0 <= c1 <= |row| && u != v
    ensures 0 <= RowCount(row, c0, c1, u) && 0 <= RowCount(row, c0, c1, v)
    ensures RowCount(row, c0, c1, u) + RowCount(row, c0, c1, v) <= c1 - c0
    decreases c1 - c0
  {
    if c0 < c1 {
      RowCountsBounded(row, c0, c1 - 1, u, v);
    }
  }

  /** Two different labels together occupy at most the window's area. */
  lemma {:induction false} RectCountsBounded(labels: seq<seq<int>>, r: Rect, u: int, v: int)
    requires 0 <= r.rowStart <= r.rowEnd <= |labels| && 0 <= r.columnStart <= r.columnEnd
    requires forall i :: 0 <= i < |labels| ==> r.columnEnd <= |labels[i]|
    requires u != v
    ensures 0 <= RectCount(labels, r, u) && 0 <= RectCount(labels, r, v)
    ensures RectCount(labels, r, u) + RectCount(labels, r, v) <= (r.rowEnd - r.rowStart) * (r.columnEnd - r.columnStart)
    decreases r.rowEnd - r.rowStart
  {
    if r.rowStart < r.rowEnd {
      RectCountsBounded(labels, r.(rowEnd := r.rowEnd - 1), u, v);
      RowCountsBounded(labels[r.rowEnd - 1], r.columnStart, r.columnEnd, u, v);
      assert (r.rowEnd - 1 - r.rowStart) * (r.columnEnd - r.columnStart) + (r.columnEnd - r.columnStart)
          == (r.rowEnd - r.rowStart) * (r.columnEnd - r.columnStart);
    }
  }

  /** A row span holding a cell with label v counts it. */
  lemma {:induction false} RowCountPositive(row: seq<int>, c0: int, c1: int, v: int, c: int)
    requires 0 <= c0 <= c < c1 <= |row| && row[c] == v
    ensures RowCount(row, c0, c1, v) >= 1
    decreases c1 - c0
  {
    if c < c1 - 1 {
      RowCountPositive(row, c0, c1 - 1, v, c);
    } else {
      RowCountsNonNegative(row, c0, c1 - 1, v);
    }
  }

  lemma {:induction false} RowCountsNonNegative(row: seq<int>, c0: int, c1: int, v: int)
    requires 0 <= c0 <= c1 <= |row|
    ensures RowCount(row, c0, c1, v) >= 0
    decreases c1 - c0
  {
    if c0 < c1 {
      RowCountsNonNegative(row, c0, c1 - 1, v);
    }
  }

  lemma {:induction false} RectCountNonNegative(labels: seq<seq<int>>, r: Rect, v: int)
    requires 0 <= r.rowStart <= r.rowEnd <= |labels| && 0 <= r.columnStart <= r.columnEnd
    requires forall i :: 0 <= i < |labels| ==> r.columnEnd <= |labels[i]|
    ensures RectCount(labels, r, v) >= 0
    decreases r.rowEnd - r.rowStart
  {
    if r.rowStart < r.rowEnd {
      RectCountNonNegative(labels, r.(rowEnd := r.rowEnd - 1), v);
      RowCountsNonNegative(labels[r.rowEnd - 1], r.columnStart, r.columnEnd, v);
    }
  }

  /** A window holding a cell with label v counts it. */
  lemma {:induction false} RectCountPositive(labels: seq<seq<int>>, r: Rect, v: int, a: int, b: int)
    requires 0 <= r.rowStart <= r.rowEnd <= |labels| && 0 <= r.columnStart <= r.columnEnd
    requires forall i :: 0 <= i < |labels| ==> r.columnEnd <= |labels[i]|
    requires InRect(r, a, b) && labels[a][b] == v
    ensures RectCount(labels, r, v) >= 1
    decreases r.rowEnd - r.rowStart
  {
    if a < r.rowEnd - 1 {
      RectCountPositive(labels, r.(rowEnd := r.rowEnd - 1), v, a, b);
      RowCountsNonNegative(labels[r.rowEnd - 1], r.columnStart, r.columnEnd, v);
    } else {
      RectCountNonNegative(labels, r.(rowEnd := r.rowEnd - 1), v);
      RowCountPositive(labels[a], r.columnStart, r.columnEnd, v, b);
    }
  }

  /** The smoothed pixel-move score: with a positive neighbourhood size the
      two probabilities are weighted by the window counts of the two labels;
      with size 0 it is the plain difference. */
  function PixelUpdateScore(labels: seq<seq<int>>, rows: int, cols: int, size: int,
                            iFrom: int, jFrom: int, iTo: int, jTo: int, current: real, proposed: real): real
    requires IsGrid(labels, rows, cols)
    requires 0 <= iFrom < rows && 0 <= iTo < rows && 0 <= jFrom < cols && 0 <= jTo < cols
  {
    if size > 0 then
      var r := SmoothingWindow(iFrom, jFrom, iTo, jTo, size, rows, cols);
      var labelFrom := labels[iFrom][jFrom];
      var labelTo := labels[iTo][jTo];
      var countTo := if labelTo == labelFrom then 0 else RectCount(labels, r, labelTo);
      proposed * (countTo as real) - current * (RectCount(labels, r, labelFrom) as real)
    else
      proposed - current
  }

  /** Properties of the prior's counts: both labels are present in the
      window, together they fill at most its area, and without a
      neighbourhood the prior leaves the score difference unweighted. */
  lemma PixelUpdateScoreProperties(labels: seq<seq<int>>, rows: int, cols: int, size: int,
                                   iFrom: int, jFrom: int, iTo: int, jTo: int, current: real, proposed: real)
    requires IsGrid(labels, rows, cols) && size >= 0
    requires 0 <= iFrom < rows && 0 <= iTo < rows && 0 <= jFrom < cols && 0 <= jTo < cols
    requires labels[iFrom][jFrom] != labels[iTo][jTo]
    ensures size == 0 ==> PixelUpdateScore(labels, rows, cols, size, iFrom, jFrom, iTo, jTo, current, proposed) == proposed - current
    ensures var r := SmoothingWindow(iFrom, jFrom, iTo, jTo, size, rows, cols);
      && 1 <= RectCount(labels, r, labels[iFrom][jFrom])
      && 1 <= RectCount(labels, r, labels[iTo][jTo])
      && RectCount(labels, r, labels[iFrom][jFrom]) + RectCount(labels, r, labels[iTo][jTo])
         <= (r.rowEnd - r.rowStart) * (r.columnEnd - r.columnStart)
  {
    var r := SmoothingWindow(iFrom, jFrom, iTo, jTo, size, rows, cols);
    RectCountPositive(labels, r, labels[iFrom][jFrom], iFrom, jFrom);
    RectCountPositive(labels, r, labels[iTo][jTo], iTo, jTo);
    RectCountsBounded(labels, r, labels[iFrom][jFrom], labels[iTo][jTo]);
  }
}
