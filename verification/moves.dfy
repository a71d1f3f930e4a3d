/**
  The two moves of the optimisation on the superpixel accumulators: a block
  move hands a whole block's count and histogram from one superpixel to
  another, a pixel move hands over one pixel and one bin. Both mark the
  moved cell and its four clamped neighbours in the spatial memory.
 */
module Moves {
  import opened Grids
  import opened Pyramid

  /** rows x cols superpixels, each with a count and a `size`-bin histogram. */
  predicate Accumulators(sp: Level, rows: int, cols: int, size: int) {
    && IsGrid(sp.pixels, rows, cols)
    && IsGrid(sp.histograms, rows, cols)
    && forall s, t :: 0 <= s < rows && 0 <= t < cols ==> |sp.histograms[s][t]| == size
  }

  /** Each superpixel's histogram adds up to its count. */
  predicate Conserving(sp: Level, rows: int, cols: int, size: int)
    requires Accumulators(sp, rows, cols, size)
  {
    forall s, t :: 0 <= s < rows && 0 <= t < cols ==> Sum(sp.histograms[s][t]) == sp.pixels[s][t]
  }

  /** No superpixel is empty. */
  predicate NonEmpty(sp: Level, rows: int, cols: int, size: int)
    requires Accumulators(sp, rows, cols, size)
  {
    forall s, t :: 0 <= s < rows && 0 <= t < cols ==> sp.pixels[s][t] >= 1
  }

  /** Moves `count` pixels with histogram `hist` from superpixel (fi, fj) to
      superpixel (ti, tj). */
  function Transfer(sp: Level, rows: int, cols: int, size: int,
                    fi: int, fj: int, ti: int, tj: int, count: int, hist: seq<int>): (r: Level)
    requires Accumulators(sp, rows, cols, size) && |hist| == size
    requires 0 <= fi < rows && 0 <= fj < cols && 0 <= ti < rows && 0 <= tj < cols
    requires fi != ti || fj != tj
    ensures Accumulators(r, rows, cols, size)
    ensures r.pixels[fi][fj] == sp.pixels[fi][fj] - count
    ensures r.pixels[ti][tj] == sp.pixels[ti][tj] + count
    ensures forall b :: 0 <= b < size ==>
      && r.histograms[fi][fj][b] == sp.histograms[fi][fj][b] - hist[b]
      && r.histograms[ti][tj][b] == sp.histograms[ti][tj][b] + hist[b]
    ensures forall s, t :: 0 <= s < rows && 0 <= t < cols && (s != fi || t != fj) && (s != ti || t != tj) ==>
      r.pixels[s][t] == sp.pixels[s][t] && r.histograms[s][t] == sp.histograms[s][t]
    ensures NonEmpty(sp, rows, cols, size) && 0 <= count < sp.pixels[fi][fj] ==> NonEmpty(r, rows, cols, size)
    ensures GridTotal(r.pixels) == GridTotal(sp.pixels)
  {
    Level(MoveCount(sp.pixels, fi, fj, ti, tj, count), MoveHistogram(sp.histograms, size, fi, fj, ti, tj, hist))
  }

  /** Moves histogram `hist` from cell (fi, fj) to cell (ti, tj) of a grid
      of `size`-bin histograms. */
  function MoveHistogram(hists: seq<seq<seq<int>>>, size: int, fi: int, fj: int, ti: int, tj: int, hist: seq<int>)
    : (r: seq<seq<seq<int>>>)
    requires 0 <= fi < |hists| && 0 <= fj < |hists[fi]| && 0 <= ti < |hists| && 0 <= tj < |hists[ti]|
    requires fi != ti || fj != tj
    requires |hist| == size && |hists[fi][fj]| == size && |hists[ti][tj]| == size
    ensures SameShape(r, hists)
    ensures r[fi][fj] == SubBins(hists[fi][fj], hist) && r[ti][tj] == AddBins(hists[ti][tj], hist)
    ensures forall s, t :: 0 <= s < |hists| && 0 <= t < |hists[s]| && (s != fi || t != fj) && (s != ti || t != tj) ==>
      r[s][t] == hists[s][t]
  {
    var h1 := Set2(hists, fi, fj, SubBins(hists[fi][fj], hist));
    Set2(h1, ti, tj, AddBins(hists[ti][tj], hist))
  }

  /** A transfer whose histogram adds up to its count keeps every
      superpixel's histogram adding up to its count. */
  lemma TransferConserves(sp: Level, rows: int, cols: int, size: int,
                          fi: int, fj: int, ti: int, tj: int, count: int, hist: seq<int>)
    requires Accumulators(sp, rows, cols, size) && |hist| == size
    requires 0 <= fi < rows && 0 <= fj < cols && 0 <= ti < rows && 0 <= tj < cols
    requires fi != ti || fj != tj
    requires Conserving(sp, rows, cols, size) && Sum(hist) == count
    ensures Conserving(Transfer(sp, rows, cols, size, fi, fj, ti, tj, count, hist), rows, cols, size)
  {
    var r := Transfer(sp, rows, cols, size, fi, fj, ti, tj, count, hist);
    forall s, t | 0 <= s < rows && 0 <= t < cols
      ensures Sum(r.histograms[s][t]) == r.pixels[s][t]
    {
      if s == fi && t == fj {
        SumSubBins(sp.histograms[fi][fj], hist);
      } else if s == ti && t == tj {
        SumAddBins(sp.histograms[ti][tj], hist);
      }
    }
  }

  /** Moves `count` from cell (fi, fj) to cell (ti, tj) of a count grid;
      the grid total stays the same. */
  function MoveCount(pixels: seq<seq<int>>, fi: int, fj: int, ti: int, tj: int, count: int): (p: seq<seq<int>>)
    requires 0 <= fi < |pixels| && 0 <= fj < |pixels[fi]| && 0 <= ti < |pixels| && 0 <= tj < |pixels[ti]|
    requires fi != ti || fj != tj
    ensures SameShape(p, pixels)
    ensures p[fi][fj] == pixels[fi][fj] - count && p[ti][tj] == pixels[ti][tj] + count
    ensures forall s, t :: 0 <= s < |pixels| && 0 <= t < |pixels[s]| && (s != fi || t != fj) && (s != ti || t != tj) ==>
      p[s][t] == pixels[s][t]
    ensures GridTotal(p) == GridTotal(pixels)
  {
    var p1 := Set2(pixels, fi, fj, pixels[fi][fj] - count);
    GridTotalUpdate(pixels, fi, fj, pixels[fi][fj] - count);
    GridTotalUpdate(p1, ti, tj, pixels[ti][tj] + count);
    Set2(p1, ti, tj, pixels[ti][tj] + count)
  }

  /** The histogram of a single pixel in bin b. */
  function UnitHistogram(size: int, b: int): (u: seq<int>)
    requires 0 <= b < size
    ensures |u| == size && Sum(u) == 1
    ensures forall k :: 0 <= k < size ==> u[k] == (if k == b then 1 else 0)
  {
    ZerosSum(size);
    SumUpdate(seq(size, k => 0), b, 1);
    seq(size, k => 0)[b := 1]
  }

  /** Moves the pixel with bin `bin` from superpixel (fi, fj) to (ti, tj):
      one count and one unit of that bin change hands, nothing else. */
  function MovePixel(sp: Level, rows: int, cols: int, size: int,
                     fi: int, fj: int, ti: int, tj: int, bin: int): (r: Level)
    requires Accumulators(sp, rows, cols, size) && 0 <= bin < size
    requires 0 <= fi < rows && 0 <= fj < cols && 0 <= ti < rows && 0 <= tj < cols
    requires fi != ti || fj != tj
    ensures Accumulators(r, rows, cols, size)
    ensures r.pixels[fi][fj] == sp.pixels[fi][fj] - 1 && r.pixels[ti][tj] == sp.pixels[ti][tj] + 1
    ensures r.histograms[fi][fj][bin] == sp.histograms[fi][fj][bin] - 1
    ensures r.histograms[ti][tj][bin] == sp.histograms[ti][tj][bin] + 1
    ensures forall k :: 0 <= k < size && k != bin ==>
      r.histograms[fi][fj][k] == sp.histograms[fi][fj][k] && r.histograms[ti][tj][k] == sp.histograms[ti][tj][k]
    ensures forall s, t :: 0 <= s < rows && 0 <= t < cols && (s != fi || t != fj) && (s != ti || t != tj) ==>
      r.pixels[s][t] == sp.pixels[s][t] && r.histograms[s][t] == sp.histograms[s][t]
    ensures Conserving(sp, rows, cols, size) ==> Conserving(r, rows, cols, size) && GridTotal(r.pixels) == GridTotal(sp.pixels)
    ensures NonEmpty(sp, rows, cols, size) && sp.pixels[fi][fj] > 1 ==> NonEmpty(r, rows, cols, size)
  {
    var u := UnitHistogram(size, bin);
    if Conserving(sp, rows, cols, size) then
      TransferConserves(sp, rows, cols, size, fi, fj, ti, tj, 1, u);
      Transfer(sp, rows, cols, size, fi, fj, ti, tj, 1, u)
    else
      Transfer(sp, rows, cols, size, fi, fj, ti, tj, 1, u)
  }

  /** Neighbour rows and columns of (i, j), clamped to the working grid. */
  datatype Neighbours = Neighbours(iPlus: int, iMinus: int, jPlus: int, jMinus: int)

  function NeighboursOf(i: int, j: int, rows: int, cols: int): (n: Neighbours)
    requires 0 <= i < rows && 0 <= j < cols
    ensures 0 <= n.iMinus <= i <= n.iPlus < rows && 0 <= n.jMinus <= j <= n.jPlus < cols
    ensures n.iPlus == i + 1 || (n.iPlus == i && i == rows - 1)
    ensures n.iMinus == i - 1 || (n.iMinus == i && i == 0)
    ensures n.jPlus == j + 1 || (n.jPlus == j && j == cols - 1)
    ensures n.jMinus == j - 1 || (n.jMinus == j && j == 0)
  {
    Neighbours(Min(i + 1, rows - 1), Max(i - 1, 0), Min(j + 1, cols - 1), Max(j - 1, 0))
  }

  /** Marks the moved cell and its four clamped neighbours as worth
      revisiting; every other cell keeps its mark. */
  function MarkMoved(memory: seq<seq<bool>>, i: int, j: int, n: Neighbours): (m: seq<seq<bool>>)
    requires 0 <= n.iMinus <= i <= n.iPlus < |memory|
    requires forall r :: 0 <= r < |memory| ==> 0 <= n.jMinus <= j <= n.jPlus < |memory[r]|
    ensures SameShape(m, memory)
    ensures m[i][j] && m[n.iPlus][j] && m[n.iMinus][j] && m[i][n.jPlus] && m[i][n.jMinus]
    ensures forall a, b :: 0 <= a < |memory| && 0 <= b < |memory[a]| ==>
      m[a][b] == (memory[a][b] || (b == j && (a == i || a == n.iPlus || a == n.iMinus))
                               || (a == i && (b == n.jPlus || b == n.jMinus)))
  {
    var m1 := Set2(memory, i, j, true);
    SetMarks(memory, i, j);
    var m2 := Set2(m1, n.iPlus, j, true);
    SetMarks(m1, n.iPlus, j);
    var m3 := Set2(m2, n.iMinus, j, true);
    SetMarks(m2, n.iMinus, j);
    var m4 := Set2(m3, i, n.jPlus, true);
    SetMarks(m3, i, n.jPlus);
    SetMarks(m4, i, n.jMinus);
    Set2(m4, i, n.jMinus, true)
  }

  /** Marking one cell: that cell becomes marked, every other keeps its mark. */
  lemma SetMarks(memory: seq<seq<bool>>, i: int, j: int)
    requires 0 <= i < |memory| && 0 <= j < |memory[i]|
    ensures forall a, b :: 0 <= a < |memory| && 0 <= b < |memory[a]| ==>
      Set2(memory, i, j, true)[a][b] == (memory[a][b] || (a == i && b == j))
  {
  }
}
