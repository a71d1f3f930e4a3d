/**
  The SEEDS optimisation as a state machine over an immutable engine
  record: block moves at each block level from the top down, the descent
  from one level to the next, and pixel moves at the pixel level.

  The pyramid holds levels 1 .. levels, lowest first. Levels 1 .. levels - 1
  are the fixed block statistics; the last entry is the superpixel level,
  whose counts and histograms are the running superpixel accumulators that
  every move updates.
 */
module Seeds {
  import opened Grids
  import opened Geometry
  import opened Pyramid
  import opened Moves
  import Labels
  import Split
  import Scoring

  /** A superpixel gives a block (pixel) away only while it holds more than
      this many of them. */
  const MinimumNumberOfSublabels: int := 1

  datatype Engine = Engine(
    geometry: Geometry,
    histogramSize: int,
    bins: seq<seq<int>>,
    level: int,
    labels: seq<seq<int>>,
    memory: seq<seq<bool>>,
    pyramid: seq<Level>,
    neighborhoodSize: int,
    minimumConfidence: real)

  // ---------------------------------------------------------------------
  // The working grid and the invariant.
  // ---------------------------------------------------------------------

  /** Rows (columns) of the working grid at a level: blocks at a block
      level, pixels at level 0. */
  function Rows(g: Geometry, level: int): (n: int)
    requires Valid(g) && 0 <= level <= g.levels
    ensures 1 <= n <= g.height
  {
    if level == 0 then g.height
    else
      BlockNumbersPositive(g, level);
      BlockHeightNumber(g, level)
  }

  function Columns(g: Geometry, level: int): (n: int)
    requires Valid(g) && 0 <= level <= g.levels
    ensures 1 <= n <= g.width
  {
    if level == 0 then g.width
    else
      BlockNumbersPositive(g, level);
      BlockWidthNumber(g, level)
  }

  function SuperpixelRows(g: Geometry): (n: int)
    requires Valid(g)
    ensures 1 <= n
  {
    Rows(g, g.levels)
  }

  function SuperpixelColumns(g: Geometry): (n: int)
    requires Valid(g)
    ensures 1 <= n
  {
    Columns(g, g.levels)
  }

  predicate Setup(e: Engine) {
    && Valid(e.geometry)
    && e.histogramSize >= 1
    && 0 <= e.level < e.geometry.levels
  }

  predicate Shapes(e: Engine)
    requires Setup(e)
  {
    var g := e.geometry;
    && IsGrid(e.bins, g.height, g.width)
    && (forall i, j :: 0 <= i < g.height && 0 <= j < g.width ==> 0 <= e.bins[i][j] < e.histogramSize)
    && IsGrid(e.labels, g.height, g.width)
    && IsGrid(e.memory, g.height, g.width)
    && |e.pyramid| == g.levels
  }

  /** The block levels below the superpixel level are the exact block
      statistics of the image: the levels the pyramid is built with from
      the bins, which are well formed. */
  predicate StaticLevels(e: Engine)
    requires Setup(e) && Shapes(e)
  {
    var g := e.geometry;
    && ValidBins(g, e.bins, e.histogramSize)
    && (forall k :: 0 <= k < g.levels - 1 ==> WellFormed(g, k + 1, e.pyramid[k], e.histogramSize))
    && (forall k :: 0 <= k < g.levels - 1 ==> e.pyramid[k] == Build(g, e.bins, e.histogramSize, g.levels)[k])
  }

  /** The superpixel accumulators: each histogram adds up to its count, no
      superpixel is empty, and the counts sum to width * height. */
  predicate SuperpixelLevel(e: Engine)
    requires Setup(e) && Shapes(e)
  {
    var sp := e.pyramid[e.geometry.levels - 1];
    var rows, cols := SuperpixelRows(e.geometry), SuperpixelColumns(e.geometry);
    && Accumulators(sp, rows, cols, e.histogramSize)
    && Conserving(sp, rows, cols, e.histogramSize)
    && NonEmpty(sp, rows, cols, e.histogramSize)
    && GridTotal(sp.pixels) == Area(e.geometry.height, e.geometry.width)
  }

  /** Every cell of the working grid carries a superpixel's label. */
  predicate LabelsInRange(e: Engine)
    requires Setup(e) && Shapes(e)
  {
    forall i, j :: 0 <= i < Rows(e.geometry, e.level) && 0 <= j < Columns(e.geometry, e.level) ==>
      0 <= e.labels[i][j] < NumberOfSuperpixels(e.geometry)
  }

  predicate Invariant(e: Engine) {
    && Setup(e)
    && Shapes(e)
    && StaticLevels(e)
    && SuperpixelLevel(e)
    && LabelsInRange(e)
  }

  /** What a move leaves alone: everything but labels, memory and the
      superpixel accumulators. */
  predicate Frame(e: Engine, r: Engine) {
    && r.geometry == e.geometry
    && r.histogramSize == e.histogramSize
    && r.bins == e.bins
    && r.level == e.level
    && r.neighborhoodSize == e.neighborhoodSize
    && r.minimumConfidence == e.minimumConfidence
    && |r.pyramid| == |e.pyramid|
    && forall k :: 0 <= k < |e.pyramid| - 1 ==> r.pyramid[k] == e.pyramid[k]
  }

  predicate InGrid(e: Engine, i: int, j: int)
    requires Setup(e)
  {
    0 <= i < Rows(e.geometry, e.level) && 0 <= j < Columns(e.geometry, e.level)
  }

  // ---------------------------------------------------------------------
  // Superpixel and block statistics.
  // ---------------------------------------------------------------------

  /** A label in range names a superpixel of the superpixel grid, and
      different labels name different superpixels. */
  lemma Decode(g: Geometry, a: int, b: int)
    requires Valid(g)
    requires 0 <= a < NumberOfSuperpixels(g) && 0 <= b < NumberOfSuperpixels(g)
    ensures 0 <= Labels.LabelRow(a, SuperpixelColumns(g)) < SuperpixelRows(g)
    ensures 0 <= Labels.LabelColumn(a, SuperpixelColumns(g)) < SuperpixelColumns(g)
    ensures a != b ==>
      Labels.LabelRow(a, SuperpixelColumns(g)) != Labels.LabelRow(b, SuperpixelColumns(g))
      || Labels.LabelColumn(a, SuperpixelColumns(g)) != Labels.LabelColumn(b, SuperpixelColumns(g))
  {
    SuperpixelsFit(g);
    Labels.DecodeInRange(a, SuperpixelRows(g), SuperpixelColumns(g));
  }

  function SuperpixelPixels(e: Engine, lab: int): (n: int)
    requires Invariant(e) && 0 <= lab < NumberOfSuperpixels(e.geometry)
    ensures n >= 1
  {
    var g := e.geometry;
    Decode(g, lab, lab);
    e.pyramid[g.levels - 1].pixels[Labels.LabelRow(lab, SuperpixelColumns(g))][Labels.LabelColumn(lab, SuperpixelColumns(g))]
  }

  function SuperpixelHistogram(e: Engine, lab: int): (h: seq<int>)
    requires Invariant(e) && 0 <= lab < NumberOfSuperpixels(e.geometry)
    ensures |h| == e.histogramSize && Sum(h) == SuperpixelPixels(e, lab)
  {
    var g := e.geometry;
    Decode(g, lab, lab);
    e.pyramid[g.levels - 1].histograms[Labels.LabelRow(lab, SuperpixelColumns(g))][Labels.LabelColumn(lab, SuperpixelColumns(g))]
  }

  /** The current level's statistics of block (i, j). */
  function BlockPixels(e: Engine, i: int, j: int): (n: int)
    requires Invariant(e) && e.level >= 1 && InGrid(e, i, j)
    ensures n >= 1
  {
    BlockFacts(e, i, j);
    e.pyramid[e.level - 1].pixels[i][j]
  }

  function BlockHistogram(e: Engine, i: int, j: int): (h: seq<int>)
    requires Invariant(e) && e.level >= 1 && InGrid(e, i, j)
    ensures |h| == e.histogramSize && Sum(h) == BlockPixels(e, i, j)
    ensures forall b :: 0 <= b < |h| ==> h[b] >= 0
  {
    BlockFacts(e, i, j);
    e.pyramid[e.level - 1].histograms[i][j]
  }

  lemma BlockFacts(e: Engine, i: int, j: int)
    requires Invariant(e) && e.level >= 1 && InGrid(e, i, j)
    ensures var lv := e.pyramid[e.level - 1];
      && |lv.histograms[i][j]| == e.histogramSize
      && lv.pixels[i][j] >= 1 && Sum(lv.histograms[i][j]) == lv.pixels[i][j]
      && forall b :: 0 <= b < e.histogramSize ==> lv.histograms[i][j][b] >= 0
  {
    var k := e.level - 1;
    assert WellFormed(e.geometry, k + 1, e.pyramid[k], e.histogramSize);
    WellFormedBounds(e.geometry, e.level, e.pyramid[k], e.histogramSize, i, j);
  }

  // ---------------------------------------------------------------------
  // Candidate selection.
  // ---------------------------------------------------------------------

  /** A move to (i, j): whether it is allowed at all, and its score. */
  datatype Candidate = Candidate(eligible: bool, score: real, i: int, j: int)

  /** The best move found so far: its score and target. */
  datatype Choice = Choice(score: real, i: int, j: int)

  predicate Accepted(c: Candidate, threshold: real) {
    c.eligible && c.score > threshold
  }

  /** The candidates in order; one replaces the best so far when it is
      allowed, beats the threshold and strictly beats the best score. */
  function Select(cs: seq<Candidate>, threshold: real, start: Choice): Choice {
    if |cs| == 0 then start
    else
      var best := Select(cs[..|cs| - 1], threshold, start);
      var c := cs[|cs| - 1];
      if Accepted(c, threshold) && c.score > best.score then Choice(c.score, c.i, c.j) else best
  }

  /** Selection picks the first of the best accepted candidates that beat
      the starting score, and keeps the start when there is none. */
  lemma {:induction false} SelectFirstBest(cs: seq<Candidate>, threshold: real, start: Choice)
    ensures var c := Select(cs, threshold, start);
      && c.score >= start.score
      && (forall k :: 0 <= k < |cs| && Accepted(cs[k], threshold) && cs[k].score > start.score ==> cs[k].score <= c.score)
      && (c == start || exists k :: 0 <= k < |cs| && Accepted(cs[k], threshold) && c == Choice(cs[k].score, cs[k].i, cs[k].j)
                                   && c.score > start.score
                                   && forall m :: 0 <= m < k && Accepted(cs[m], threshold) ==> cs[m].score < c.score)
    decreases |cs|
  {
    if |cs| > 0 {
      var n := |cs| - 1;
      SelectFirstBest(cs[..n], threshold, start);
      assert forall k :: 0 <= k < n ==> cs[..n][k] == cs[k];
    }
  }

  /** A selected choice that beats the start comes from an accepted
      candidate (named by the index k). */
  lemma SelectedCandidate(cs: seq<Candidate>, threshold: real, start: Choice) returns (k: int)
    requires Select(cs, threshold, start).score > start.score
    ensures 0 <= k < |cs| && Accepted(cs[k], threshold)
    ensures Select(cs, threshold, start) == Choice(cs[k].score, cs[k].i, cs[k].j)
  {
    SelectFirstBest(cs, threshold, start);
    k :| 0 <= k < |cs| && Accepted(cs[k], threshold) && Select(cs, threshold, start) == Choice(cs[k].score, cs[k].i, cs[k].j);
  }

  /** All four neighbours carry the cell's own label. */
  predicate Interior(e: Engine, i: int, j: int, n: Neighbours)
    requires Setup(e) && Shapes(e) && InGrid(e, i, j) && n == NeighboursOf(i, j, Rows(e.geometry, e.level), Columns(e.geometry, e.level))
  {
    var lab := e.labels[i][j];
    && e.labels[n.iPlus][j] == lab && e.labels[n.iMinus][j] == lab
    && e.labels[i][n.jPlus] == lab && e.labels[i][n.jMinus] == lab
  }

  /** The four split checks, in the order the moves are considered, on the
      3 x 3 neighbourhood with image-sized masking. */
  function NoSplits(e: Engine, i: int, j: int, n: Neighbours): (s: seq<bool>)
    requires Setup(e) && Shapes(e) && InGrid(e, i, j) && n == NeighboursOf(i, j, Rows(e.geometry, e.level), Columns(e.geometry, e.level))
    ensures |s| == 4
  {
    var g := e.geometry;
    var w := Split.ReadWindow(e.labels, g.height, g.width, i, j, n.iPlus, n.iMinus, n.jPlus, n.jMinus);
    [ !Split.SplitsVerticalForward(w, i, j, g.height, g.width),
      !Split.SplitsVerticalBackward(w, i, j, g.height, g.width),
      !Split.SplitsHorizontalForward(w, i, j, g.height, g.width),
      !Split.SplitsHorizontalBackward(w, i, j, g.height, g.width) ]
  }

  /** The four neighbour targets, in the order the moves are considered. */
  function Targets(n: Neighbours, i: int, j: int): seq<(int, int)> {
    [(n.iPlus, j), (n.iMinus, j), (i, n.jPlus), (i, n.jMinus)]
  }

  lemma TargetsInGrid(e: Engine, i: int, j: int, n: Neighbours)
    requires Setup(e) && InGrid(e, i, j) && n == NeighboursOf(i, j, Rows(e.geometry, e.level), Columns(e.geometry, e.level))
    ensures forall k :: 0 <= k < 4 ==> InGrid(e, Targets(n, i, j)[k].0, Targets(n, i, j)[k].1)
  {
  }

  // ---------------------------------------------------------------------
  // Block moves.
  // ---------------------------------------------------------------------

  /** The block's superpixel holds more than one block's worth of pixels:
      at least MinimumNumberOfSublabels + 1 times the block's count, which
      is the quotient test of the code (`GuardIsQuotient`). */
  predicate BlockGuard(e: Engine, i: int, j: int)
    requires Invariant(e) && e.level >= 1 && InGrid(e, i, j)
  {
    SuperpixelPixels(e, e.labels[i][j]) >= (MinimumNumberOfSublabels + 1) * BlockPixels(e, i, j)
  }

  /** The block guard compares the integer quotient of the superpixel's
      count by the block's count with MinimumNumberOfSublabels. */
  lemma GuardIsQuotient(total: int, part: int)
    requires part >= 1
    ensures total / part > MinimumNumberOfSublabels <==> total >= (MinimumNumberOfSublabels + 1) * part
  {
    var q, r := total / part, total % part;
    assert total == q * part + r && 0 <= r < part;
    if q > MinimumNumberOfSublabels {
      MulMonotone(part, MinimumNumberOfSublabels + 1, q);
    } else {
      MulMonotone(part, q, MinimumNumberOfSublabels);
    }
  }

  function CurrentBlockScore(e: Engine, i: int, j: int): real
    requires Invariant(e) && e.level >= 1 && InGrid(e, i, j) && BlockGuard(e, i, j)
  {
    var from := e.labels[i][j];
    Scoring.CurrentBlockScore(BlockHistogram(e, i, j), SuperpixelHistogram(e, from), BlockPixels(e, i, j), SuperpixelPixels(e, from))
  }

  function ProposedBlockScore(e: Engine, i: int, j: int, lab: int): real
    requires Invariant(e) && e.level >= 1 && InGrid(e, i, j) && 0 <= lab < NumberOfSuperpixels(e.geometry)
  {
    Scoring.ProposedBlockScore(BlockHistogram(e, i, j), SuperpixelHistogram(e, lab), BlockPixels(e, i, j), SuperpixelPixels(e, lab))
  }

  function BlockCandidates(e: Engine, i: int, j: int, n: Neighbours): (cs: seq<Candidate>)
    requires Invariant(e) && e.level >= 1 && InGrid(e, i, j)
    requires n == NeighboursOf(i, j, Rows(e.geometry, e.level), Columns(e.geometry, e.level))
    ensures |cs| == 4
    ensures forall k :: 0 <= k < 4 ==>
      && cs[k].i == Targets(n, i, j)[k].0 && cs[k].j == Targets(n, i, j)[k].1
      && InGrid(e, cs[k].i, cs[k].j)
      && cs[k].eligible == (e.labels[cs[k].i][cs[k].j] != e.labels[i][j] && NoSplits(e, i, j, n)[k])
      && cs[k].score == ProposedBlockScore(e, i, j, e.labels[cs[k].i][cs[k].j])
  {
    TargetsInGrid(e, i, j, n);
    var ok := NoSplits(e, i, j, n);
    var ts := Targets(n, i, j);
    seq(4, k requires 0 <= k < 4 =>
      Candidate(e.labels[ts[k].0][ts[k].1] != e.labels[i][j] && ok[k],
                ProposedBlockScore(e, i, j, e.labels[ts[k].0][ts[k].1]), ts[k].0, ts[k].1))
  }

  /** The superpixel accumulators after block (i, j) moves to the
      superpixel of (ti, tj): still conserving, still non-empty, with the
      counts still summing to width * height. */
  function BlockTransfer(e: Engine, i: int, j: int, ti: int, tj: int): (moved: Level)
    requires Invariant(e) && e.level >= 1 && InGrid(e, i, j) && InGrid(e, ti, tj)
    requires e.labels[ti][tj] != e.labels[i][j] && BlockGuard(e, i, j)
    ensures var rows, cols := SuperpixelRows(e.geometry), SuperpixelColumns(e.geometry);
      && Accumulators(moved, rows, cols, e.histogramSize)
      && Conserving(moved, rows, cols, e.histogramSize)
      && NonEmpty(moved, rows, cols, e.histogramSize)
      && GridTotal(moved.pixels) == Area(e.geometry.height, e.geometry.width)
  {
    var g := e.geometry;
    var from, to := e.labels[i][j], e.labels[ti][tj];
    var rows, cols := SuperpixelRows(g), SuperpixelColumns(g);
    Decode(g, from, to);
    Decode(g, to, from);
    var sp := e.pyramid[g.levels - 1];
    var fi, fj := Labels.LabelRow(from, cols), Labels.LabelColumn(from, cols);
    var ti', tj' := Labels.LabelRow(to, cols), Labels.LabelColumn(to, cols);
    TransferConserves(sp, rows, cols, e.histogramSize, fi, fj, ti', tj', BlockPixels(e, i, j), BlockHistogram(e, i, j));
    Transfer(sp, rows, cols, e.histogramSize, fi, fj, ti', tj', BlockPixels(e, i, j), BlockHistogram(e, i, j))
  }

  /** Hands block (i, j) from its superpixel to the superpixel of (ti, tj). */
  function UpdateBlock(e: Engine, i: int, j: int, ti: int, tj: int, n: Neighbours): (r: Engine)
    requires Invariant(e) && e.level >= 1 && InGrid(e, i, j) && InGrid(e, ti, tj)
    requires n == NeighboursOf(i, j, Rows(e.geometry, e.level), Columns(e.geometry, e.level))
    requires e.labels[ti][tj] != e.labels[i][j] && BlockGuard(e, i, j)
    ensures Invariant(r) && Frame(e, r)
    ensures r.labels[i][j] == e.labels[ti][tj]
    ensures forall a, b :: 0 <= a < |e.labels| && 0 <= b < |e.labels[a]| && (a != i || b != j) ==> r.labels[a][b] == e.labels[a][b]
    ensures r.memory == MarkMoved(e.memory, i, j, n)
  {
    var moved := BlockTransfer(e, i, j, ti, tj);
    var r := e.(labels := Set2(e.labels, i, j, e.labels[ti][tj]),
                memory := MarkMoved(e.memory, i, j, n),
                pyramid := e.pyramid[e.geometry.levels - 1 := moved]);
    MoveKeepsValid(e, r, i, j, e.labels[ti][tj], moved);
    r
  }

  /** The superpixel of the block loses the block's count and every bin of
      its histogram, the neighbour's superpixel gains them, and every other
      superpixel keeps its statistics. */
  lemma UpdateBlockAccounts(e: Engine, i: int, j: int, ti: int, tj: int, n: Neighbours)
    requires Invariant(e) && e.level >= 1 && InGrid(e, i, j) && InGrid(e, ti, tj)
    requires n == NeighboursOf(i, j, Rows(e.geometry, e.level), Columns(e.geometry, e.level))
    requires e.labels[ti][tj] != e.labels[i][j] && BlockGuard(e, i, j)
    ensures var r, from, to := UpdateBlock(e, i, j, ti, tj, n), e.labels[i][j], e.labels[ti][tj];
      && SuperpixelPixels(r, from) == SuperpixelPixels(e, from) - BlockPixels(e, i, j)
      && SuperpixelPixels(r, to) == SuperpixelPixels(e, to) + BlockPixels(e, i, j)
      && (forall b :: 0 <= b < e.histogramSize ==>
            && SuperpixelHistogram(r, from)[b] == SuperpixelHistogram(e, from)[b] - BlockHistogram(e, i, j)[b]
            && SuperpixelHistogram(r, to)[b] == SuperpixelHistogram(e, to)[b] + BlockHistogram(e, i, j)[b])
      && (forall lab :: 0 <= lab < NumberOfSuperpixels(e.geometry) && lab != from && lab != to ==>
            SuperpixelPixels(r, lab) == SuperpixelPixels(e, lab) && SuperpixelHistogram(r, lab) == SuperpixelHistogram(e, lab))
  {
    var r, from, to := UpdateBlock(e, i, j, ti, tj, n), e.labels[i][j], e.labels[ti][tj];
    MoveAccountsEnds(e, r, from, to, BlockPixels(e, i, j), BlockHistogram(e, i, j));
    forall lab | 0 <= lab < NumberOfSuperpixels(e.geometry) && lab != from && lab != to
      ensures SuperpixelPixels(r, lab) == SuperpixelPixels(e, lab) && SuperpixelHistogram(r, lab) == SuperpixelHistogram(e, lab)
    {
      MoveAccountsOther(e, r, from, to, BlockPixels(e, i, j), BlockHistogram(e, i, j), lab);
    }
  }

  /** A move that relabels one working cell with a label in range, leaves
      the block levels alone and replaces the accumulators by conserving,
      non-empty ones with the same total keeps the engine valid. */
  lemma MoveKeepsValid(e: Engine, r: Engine, i: int, j: int, to: int, moved: Level)
    requires Invariant(e) && InGrid(e, i, j) && 0 <= to < NumberOfSuperpixels(e.geometry)
    requires var rows, cols := SuperpixelRows(e.geometry), SuperpixelColumns(e.geometry);
      && Accumulators(moved, rows, cols, e.histogramSize)
      && Conserving(moved, rows, cols, e.histogramSize)
      && NonEmpty(moved, rows, cols, e.histogramSize)
      && GridTotal(moved.pixels) == Area(e.geometry.height, e.geometry.width)
    requires SameShape(r.memory, e.memory)
    requires r == e.(labels := Set2(e.labels, i, j, to), memory := r.memory,
                     pyramid := e.pyramid[e.geometry.levels - 1 := moved])
    ensures Invariant(r) && Frame(e, r)
  {
    var g := e.geometry;
    assert Shapes(r);
    forall k | 0 <= k < g.levels - 1
      ensures WellFormed(g, k + 1, r.pyramid[k], r.histogramSize)
    {
      assert r.pyramid[k] == e.pyramid[k];
    }
    assert SuperpixelLevel(r);
    assert LabelsInRange(r);
  }

  /** The superpixel accumulators after a transfer between the superpixels
      of labels `from` and `to`. */
  predicate TransferredBetween(e: Engine, r: Engine, from: int, to: int, count: int, hist: seq<int>)
    requires Invariant(e) && r.geometry == e.geometry && |r.pyramid| == e.geometry.levels
    requires 0 <= from < NumberOfSuperpixels(e.geometry) && 0 <= to < NumberOfSuperpixels(e.geometry) && from != to
    requires |hist| == e.histogramSize
  {
    var g, cols := e.geometry, SuperpixelColumns(e.geometry);
    Decode(g, from, to);
    Decode(g, to, from);
    r.pyramid[g.levels - 1] == Transfer(e.pyramid[g.levels - 1], SuperpixelRows(g), cols, e.histogramSize,
      Labels.LabelRow(from, cols), Labels.LabelColumn(from, cols), Labels.LabelRow(to, cols), Labels.LabelColumn(to, cols), count, hist)
  }

  /** The two superpixels of a transfer, read through their labels. */
  lemma MoveAccountsEnds(e: Engine, r: Engine, from: int, to: int, count: int, hist: seq<int>)
    requires Invariant(e) && Invariant(r) && r.histogramSize == e.histogramSize && r.geometry == e.geometry
    requires 0 <= from < NumberOfSuperpixels(e.geometry) && 0 <= to < NumberOfSuperpixels(e.geometry) && from != to
    requires |hist| == e.histogramSize
    requires TransferredBetween(e, r, from, to, count, hist)
    ensures SuperpixelPixels(r, from) == SuperpixelPixels(e, from) - count
    ensures SuperpixelPixels(r, to) == SuperpixelPixels(e, to) + count
    ensures forall b :: 0 <= b < e.histogramSize ==>
      && SuperpixelHistogram(r, from)[b] == SuperpixelHistogram(e, from)[b] - hist[b]
      && SuperpixelHistogram(r, to)[b] == SuperpixelHistogram(e, to)[b] + hist[b]
  {
    Decode(e.geometry, from, to);
    Decode(e.geometry, to, from);
  }

  /** Any third superpixel keeps its statistics through a transfer. */
  lemma MoveAccountsOther(e: Engine, r: Engine, from: int, to: int, count: int, hist: seq<int>, lab: int)
    requires Invariant(e) && Invariant(r) && r.histogramSize == e.histogramSize && r.geometry == e.geometry
    requires 0 <= from < NumberOfSuperpixels(e.geometry) && 0 <= to < NumberOfSuperpixels(e.geometry) && from != to
    requires |hist| == e.histogramSize
    requires TransferredBetween(e, r, from, to, count, hist)
    requires 0 <= lab < NumberOfSuperpixels(e.geometry) && lab != from && lab != to
    ensures SuperpixelPixels(r, lab) == SuperpixelPixels(e, lab) && SuperpixelHistogram(r, lab) == SuperpixelHistogram(e, lab)
  {
    Decode(e.geometry, lab, from);
    Decode(e.geometry, lab, to);
  }

  /** The best accepted block move out of (i, j). */
  function BlockChoice(e: Engine, i: int, j: int, n: Neighbours): Choice
    requires Invariant(e) && e.level >= 1 && InGrid(e, i, j) && BlockGuard(e, i, j)
    requires n == NeighboursOf(i, j, Rows(e.geometry, e.level), Columns(e.geometry, e.level))
  {
    Select(BlockCandidates(e, i, j, n), CurrentBlockScore(e, i, j) + e.minimumConfidence, Choice(0.0, i, j))
  }

  /** A block choice that beats zero is a neighbour with a different label
      whose proposed score beat the current one by the confidence margin. */
  lemma BlockChoiceFacts(e: Engine, i: int, j: int, n: Neighbours)
    requires Invariant(e) && e.level >= 1 && InGrid(e, i, j) && BlockGuard(e, i, j)
    requires n == NeighboursOf(i, j, Rows(e.geometry, e.level), Columns(e.geometry, e.level))
    requires BlockChoice(e, i, j, n).score > 0.0
    ensures var c := BlockChoice(e, i, j, n);
      && InGrid(e, c.i, c.j)
      && e.labels[c.i][c.j] != e.labels[i][j]
      && c.score == ProposedBlockScore(e, i, j, e.labels[c.i][c.j])
      && c.score > CurrentBlockScore(e, i, j) + e.minimumConfidence
      && exists k :: 0 <= k < 4 && c.i == Targets(n, i, j)[k].0 && c.j == Targets(n, i, j)[k].1
  {
    var cs := BlockCandidates(e, i, j, n);
    var k := SelectedCandidate(cs, CurrentBlockScore(e, i, j) + e.minimumConfidence, Choice(0.0, i, j));
  }

  /** The move step of a block once its memory bit is cleared: nothing
      happens inside a superpixel or when the superpixel is down to one
      block; otherwise the best accepted neighbour takes the block. */
  function TryBlockMove(e: Engine, i: int, j: int): (r: Engine)
    requires Invariant(e) && e.level >= 1 && InGrid(e, i, j)
    ensures Invariant(r) && Frame(e, r)
    ensures forall a, b :: 0 <= a < |e.labels| && 0 <= b < |e.labels[a]| && (a != i || b != j) ==> r.labels[a][b] == e.labels[a][b]
    ensures r.labels[i][j] == e.labels[i][j] ==> r == e
    ensures r.labels[i][j] != e.labels[i][j] ==>
      && BlockGuard(e, i, j)
      && 0 <= r.labels[i][j] < NumberOfSuperpixels(e.geometry)
      && ProposedBlockScore(e, i, j, r.labels[i][j]) > CurrentBlockScore(e, i, j) + e.minimumConfidence
      && ProposedBlockScore(e, i, j, r.labels[i][j]) > 0.0
      && (exists k :: 0 <= k < 4 && r.labels[i][j] == e.labels[Targets(NeighboursOf(i, j, Rows(e.geometry, e.level), Columns(e.geometry, e.level)), i, j)[k].0]
                                                            [Targets(NeighboursOf(i, j, Rows(e.geometry, e.level), Columns(e.geometry, e.level)), i, j)[k].1])
      && r.memory[i][j]
  {
    var n := NeighboursOf(i, j, Rows(e.geometry, e.level), Columns(e.geometry, e.level));
    if Interior(e, i, j, n) || !BlockGuard(e, i, j) then e
    else
      var c := BlockChoice(e, i, j, n);
      if c.score > 0.0 then
        BlockChoiceFacts(e, i, j, n);
        UpdateBlock(e, i, j, c.i, c.j, n)
      else e
  }

  /** One visit of block (i, j): only a block marked in the spatial memory
      is considered, and its mark is cleared first. */
  function PerformBlockUpdate(e: Engine, i: int, j: int): (r: Engine)
    requires Invariant(e) && e.level >= 1 && InGrid(e, i, j)
    ensures Invariant(r) && Frame(e, r)
    ensures !e.memory[i][j] ==> r == e
    ensures e.memory[i][j] && Interior(e, i, j, NeighboursOf(i, j, Rows(e.geometry, e.level), Columns(e.geometry, e.level))) ==>
      r == e.(memory := Set2(e.memory, i, j, false))
    ensures e.memory[i][j] && r.labels[i][j] == e.labels[i][j] ==> r == e.(memory := Set2(e.memory, i, j, false))
    ensures forall a, b :: 0 <= a < |e.labels| && 0 <= b < |e.labels[a]| && (a != i || b != j) ==> r.labels[a][b] == e.labels[a][b]
    ensures r.labels[i][j] != e.labels[i][j] ==>
      && e.memory[i][j]
      && BlockGuard(e, i, j)
      && 0 <= r.labels[i][j] < NumberOfSuperpixels(e.geometry)
      && ProposedBlockScore(e, i, j, r.labels[i][j]) > CurrentBlockScore(e, i, j) + e.minimumConfidence
  {
    if !e.memory[i][j] then e
    else
      var cleared := e.(memory := Set2(e.memory, i, j, false));
      ClearKeepsInvariant(e, i, j);
      var r := TryBlockMove(cleared, i, j);
      if r.labels[i][j] != e.labels[i][j] then
        BlockStatisticsIgnoreMemory(e, cleared, i, j, r.labels[i][j]);
        r
      else r
  }

  /** Clearing one memory bit keeps the invariant. */
  lemma ClearKeepsInvariant(e: Engine, i: int, j: int)
    requires Invariant(e) && InGrid(e, i, j)
    ensures Invariant(e.(memory := Set2(e.memory, i, j, false)))
  {
    var r := e.(memory := Set2(e.memory, i, j, false));
    assert Shapes(r);
    assert StaticLevels(r) && SuperpixelLevel(r) && LabelsInRange(r);
  }

  /** Block statistics and scores do not depend on the spatial memory. */
  lemma BlockStatisticsIgnoreMemory(e: Engine, e': Engine, i: int, j: int, lab: int)
    requires Invariant(e) && Invariant(e') && e' == e.(memory := e'.memory)
    requires e.level >= 1 && InGrid(e, i, j) && 0 <= lab < NumberOfSuperpixels(e.geometry)
    ensures BlockGuard(e', i, j) == BlockGuard(e, i, j)
    ensures BlockGuard(e, i, j) ==> CurrentBlockScore(e', i, j) == CurrentBlockScore(e, i, j)
    ensures ProposedBlockScore(e', i, j, lab) == ProposedBlockScore(e, i, j, lab)
  {
  }

  // ---------------------------------------------------------------------
  // Pixel moves.
  // ---------------------------------------------------------------------

  /** The pixel's superpixel holds more than one pixel. */
  predicate PixelGuard(e: Engine, i: int, j: int)
    requires Invariant(e) && e.level == 0 && InGrid(e, i, j)
  {
    SuperpixelPixels(e, e.labels[i][j]) > MinimumNumberOfSublabels
  }

  /** Probability of the pixel's bin under its own superpixel. */
  function CurrentPixelScore(e: Engine, i: int, j: int): real
    requires Invariant(e) && e.level == 0 && InGrid(e, i, j)
  {
    var from := e.labels[i][j];
    Scoring.PixelScore(SuperpixelHistogram(e, from), e.bins[i][j], SuperpixelPixels(e, from))
  }

  /** Probability of the pixel's bin under the superpixel labelled `lab`. */
  function ProposedPixelScore(e: Engine, i: int, j: int, lab: int): real
    requires Invariant(e) && e.level == 0 && InGrid(e, i, j) && 0 <= lab < NumberOfSuperpixels(e.geometry)
  {
    Scoring.PixelScore(SuperpixelHistogram(e, lab), e.bins[i][j], SuperpixelPixels(e, lab))
  }

  /** The smoothed score of moving pixel (i, j) to the superpixel of (ti, tj). */
  function PixelMoveScore(e: Engine, i: int, j: int, ti: int, tj: int): real
    requires Invariant(e) && e.level == 0 && InGrid(e, i, j) && InGrid(e, ti, tj)
  {
    var g := e.geometry;
    Scoring.PixelUpdateScore(e.labels, g.height, g.width, e.neighborhoodSize, i, j, ti, tj,
      CurrentPixelScore(e, i, j), ProposedPixelScore(e, i, j, e.labels[ti][tj]))
  }

  function PixelCandidates(e: Engine, i: int, j: int, n: Neighbours): (cs: seq<Candidate>)
    requires Invariant(e) && e.level == 0 && InGrid(e, i, j)
    requires n == NeighboursOf(i, j, Rows(e.geometry, e.level), Columns(e.geometry, e.level))
    ensures |cs| == 4
    ensures forall k :: 0 <= k < 4 ==>
      && cs[k].i == Targets(n, i, j)[k].0 && cs[k].j == Targets(n, i, j)[k].1
      && InGrid(e, cs[k].i, cs[k].j)
      && cs[k].eligible == (e.labels[cs[k].i][cs[k].j] != e.labels[i][j] && NoSplits(e, i, j, n)[k])
      && cs[k].score == PixelMoveScore(e, i, j, cs[k].i, cs[k].j)
  {
    TargetsInGrid(e, i, j, n);
    var ok := NoSplits(e, i, j, n);
    var ts := Targets(n, i, j);
    seq(4, k requires 0 <= k < 4 =>
      Candidate(e.labels[ts[k].0][ts[k].1] != e.labels[i][j] && ok[k],
                PixelMoveScore(e, i, j, ts[k].0, ts[k].1), ts[k].0, ts[k].1))
  }

  /** The superpixel accumulators after pixel (i, j) moves to the
      superpixel of (ti, tj). */
  function PixelTransfer(e: Engine, i: int, j: int, ti: int, tj: int): (moved: Level)
    requires Invariant(e) && e.level == 0 && InGrid(e, i, j) && InGrid(e, ti, tj)
    requires e.labels[ti][tj] != e.labels[i][j] && PixelGuard(e, i, j)
    ensures var rows, cols := SuperpixelRows(e.geometry), SuperpixelColumns(e.geometry);
      && Accumulators(moved, rows, cols, e.histogramSize)
      && Conserving(moved, rows, cols, e.histogramSize)
      && NonEmpty(moved, rows, cols, e.histogramSize)
      && GridTotal(moved.pixels) == Area(e.geometry.height, e.geometry.width)
  {
    var g := e.geometry;
    var from, to := e.labels[i][j], e.labels[ti][tj];
    var rows, cols := SuperpixelRows(g), SuperpixelColumns(g);
    Decode(g, from, to);
    Decode(g, to, from);
    MovePixel(e.pyramid[g.levels - 1], rows, cols, e.histogramSize,
      Labels.LabelRow(from, cols), Labels.LabelColumn(from, cols), Labels.LabelRow(to, cols), Labels.LabelColumn(to, cols), e.bins[i][j])
  }

  /** Hands pixel (i, j) from its superpixel to the superpixel of (ti, tj). */
  function UpdatePixel(e: Engine, i: int, j: int, ti: int, tj: int, n: Neighbours): (r: Engine)
    requires Invariant(e) && e.level == 0 && InGrid(e, i, j) && InGrid(e, ti, tj)
    requires n == NeighboursOf(i, j, Rows(e.geometry, e.level), Columns(e.geometry, e.level))
    requires e.labels[ti][tj] != e.labels[i][j] && PixelGuard(e, i, j)
    ensures Invariant(r) && Frame(e, r)
    ensures r.labels[i][j] == e.labels[ti][tj]
    ensures forall a, b :: 0 <= a < |e.labels| && 0 <= b < |e.labels[a]| && (a != i || b != j) ==> r.labels[a][b] == e.labels[a][b]
    ensures r.memory == MarkMoved(e.memory, i, j, n)
  {
    var moved := PixelTransfer(e, i, j, ti, tj);
    var r := e.(labels := Set2(e.labels, i, j, e.labels[ti][tj]),
                memory := MarkMoved(e.memory, i, j, n),
                pyramid := e.pyramid[e.geometry.levels - 1 := moved]);
    MoveKeepsValid(e, r, i, j, e.labels[ti][tj], moved);
    r
  }

  /** The pixel's superpixel loses one pixel and one unit of the pixel's
      bin, the neighbour's superpixel gains them; no other bin and no
      other superpixel changes. */
  lemma UpdatePixelAccounts(e: Engine, i: int, j: int, ti: int, tj: int, n: Neighbours)
    requires Invariant(e) && e.level == 0 && InGrid(e, i, j) && InGrid(e, ti, tj)
    requires n == NeighboursOf(i, j, Rows(e.geometry, e.level), Columns(e.geometry, e.level))
    requires e.labels[ti][tj] != e.labels[i][j] && PixelGuard(e, i, j)
    ensures var r, from, to, bin := UpdatePixel(e, i, j, ti, tj, n), e.labels[i][j], e.labels[ti][tj], e.bins[i][j];
      && SuperpixelPixels(r, from) == SuperpixelPixels(e, from) - 1
      && SuperpixelPixels(r, to) == SuperpixelPixels(e, to) + 1
      && SuperpixelHistogram(r, from)[bin] == SuperpixelHistogram(e, from)[bin] - 1
      && SuperpixelHistogram(r, to)[bin] == SuperpixelHistogram(e, to)[bin] + 1
      && (forall b :: 0 <= b < e.histogramSize && b != bin ==>
            SuperpixelHistogram(r, from)[b] == SuperpixelHistogram(e, from)[b]
            && SuperpixelHistogram(r, to)[b] == SuperpixelHistogram(e, to)[b])
      && (forall lab :: 0 <= lab < NumberOfSuperpixels(e.geometry) && lab != from && lab != to ==>
            SuperpixelPixels(r, lab) == SuperpixelPixels(e, lab) && SuperpixelHistogram(r, lab) == SuperpixelHistogram(e, lab))
  {
    var r, from, to := UpdatePixel(e, i, j, ti, tj, n), e.labels[i][j], e.labels[ti][tj];
    var unit := UnitHistogram(e.histogramSize, e.bins[i][j]);
    MoveAccountsEnds(e, r, from, to, 1, unit);
    forall lab | 0 <= lab < NumberOfSuperpixels(e.geometry) && lab != from && lab != to
      ensures SuperpixelPixels(r, lab) == SuperpixelPixels(e, lab) && SuperpixelHistogram(r, lab) == SuperpixelHistogram(e, lab)
    {
      MoveAccountsOther(e, r, from, to, 1, unit, lab);
    }
  }

  /** The best accepted pixel move out of (i, j). */
  function PixelChoice(e: Engine, i: int, j: int, n: Neighbours): Choice
    requires Invariant(e) && e.level == 0 && InGrid(e, i, j)
    requires n == NeighboursOf(i, j, Rows(e.geometry, e.level), Columns(e.geometry, e.level))
  {
    Select(PixelCandidates(e, i, j, n), 0.0, Choice(0.0, i, j))
  }

  /** A pixel choice that beats zero is a neighbour with a different label
      and a positive smoothed score. */
  lemma PixelChoiceFacts(e: Engine, i: int, j: int, n: Neighbours)
    requires Invariant(e) && e.level == 0 && InGrid(e, i, j)
    requires n == NeighboursOf(i, j, Rows(e.geometry, e.level), Columns(e.geometry, e.level))
    requires PixelChoice(e, i, j, n).score > 0.0
    ensures var c := PixelChoice(e, i, j, n);
      && InGrid(e, c.i, c.j)
      && e.labels[c.i][c.j] != e.labels[i][j]
      && c.score == PixelMoveScore(e, i, j, c.i, c.j)
      && exists k :: 0 <= k < 4 && c.i == Targets(n, i, j)[k].0 && c.j == Targets(n, i, j)[k].1
  {
    var cs := PixelCandidates(e, i, j, n);
    var k := SelectedCandidate(cs, 0.0, Choice(0.0, i, j));
  }

  /** The move step of a pixel once its memory bit is cleared. */
  function TryPixelMove(e: Engine, i: int, j: int): (r: Engine)
    requires Invariant(e) && e.level == 0 && InGrid(e, i, j)
    ensures Invariant(r) && Frame(e, r)
    ensures forall a, b :: 0 <= a < |e.labels| && 0 <= b < |e.labels[a]| && (a != i || b != j) ==> r.labels[a][b] == e.labels[a][b]
    ensures r.labels[i][j] == e.labels[i][j] ==> r == e
    ensures r.labels[i][j] != e.labels[i][j] ==>
      && PixelGuard(e, i, j)
      && PixelAccepted(e, i, j, r.labels[i][j])
      && r.memory[i][j]
  {
    var n := NeighboursOf(i, j, Rows(e.geometry, e.level), Columns(e.geometry, e.level));
    if Interior(e, i, j, n) || !PixelGuard(e, i, j) then e
    else
      var c := PixelChoice(e, i, j, n);
      if c.score > 0.0 then
        PixelChoiceFacts(e, i, j, n);
        UpdatePixel(e, i, j, c.i, c.j, n)
      else e
  }

  /** One visit of pixel (i, j): only a pixel marked in the spatial memory
      is considered, and its mark is cleared first. */
  function PerformPixelUpdate(e: Engine, i: int, j: int): (r: Engine)
    requires Invariant(e) && e.level == 0 && InGrid(e, i, j)
    ensures Invariant(r) && Frame(e, r)
    ensures !e.memory[i][j] ==> r == e
    ensures e.memory[i][j] && Interior(e, i, j, NeighboursOf(i, j, Rows(e.geometry, e.level), Columns(e.geometry, e.level))) ==>
      r == e.(memory := Set2(e.memory, i, j, false))
    ensures e.memory[i][j] && r.labels[i][j] == e.labels[i][j] ==> r == e.(memory := Set2(e.memory, i, j, false))
    ensures forall a, b :: 0 <= a < |e.labels| && 0 <= b < |e.labels[a]| && (a != i || b != j) ==> r.labels[a][b] == e.labels[a][b]
    ensures r.labels[i][j] != e.labels[i][j] ==>
      && e.memory[i][j] && PixelGuard(e, i, j)
      && PixelAccepted(e, i, j, r.labels[i][j])
  {
    if !e.memory[i][j] then e
    else
      var cleared := e.(memory := Set2(e.memory, i, j, false));
      ClearKeepsInvariant(e, i, j);
      PixelGuardIgnoresMemory(e, cleared, i, j);
      var r := TryPixelMove(cleared, i, j);
      if r.labels[i][j] != e.labels[i][j] then
        PixelAcceptedIgnoresMemory(e, cleared, i, j, r.labels[i][j]);
        r
      else r
  }

  /** `lab` is the label of one of the four neighbours of pixel (i, j) whose
      smoothed move score is positive. */
  predicate PixelAccepted(e: Engine, i: int, j: int, lab: int)
    requires Invariant(e) && e.level == 0 && InGrid(e, i, j)
  {
    exists k :: 0 <= k < 4
      && var t := Targets(NeighboursOf(i, j, Rows(e.geometry, e.level), Columns(e.geometry, e.level)), i, j)[k];
         lab == e.labels[t.0][t.1] && PixelMoveScore(e, i, j, t.0, t.1) > 0.0
  }

  /** Whether a move is accepted does not depend on the spatial memory. */
  lemma PixelAcceptedIgnoresMemory(e: Engine, e': Engine, i: int, j: int, lab: int)
    requires Invariant(e) && Invariant(e') && e' == e.(memory := e'.memory)
    requires e.level == 0 && InGrid(e, i, j)
    ensures PixelAccepted(e', i, j, lab) == PixelAccepted(e, i, j, lab)
  {
  }

  lemma PixelGuardIgnoresMemory(e: Engine, e': Engine, i: int, j: int)
    requires Invariant(e) && Invariant(e') && e' == e.(memory := e'.memory)
    requires e.level == 0 && InGrid(e, i, j)
    ensures PixelGuard(e', i, j) == PixelGuard(e, i, j)
  {
  }

  // ---------------------------------------------------------------------
  // Descending a level.
  // ---------------------------------------------------------------------

  /** The block (or, from level 1, pixel) row k of the grid at level - 1
      lies in this row of the grid at `level`. */
  function ParentRow(g: Geometry, level: int, k: int): (p: int)
    requires Valid(g) && 1 <= level <= g.levels && 0 <= k
    ensures 0 <= p < Rows(g, level)
  {
    if level > 1 then Labels.Owner(k, Rows(g, level)) else Labels.BlockOf(k, g.minimumBlockHeight, Rows(g, 1))
  }

  function ParentColumn(g: Geometry, level: int, l: int): (p: int)
    requires Valid(g) && 1 <= level <= g.levels && 0 <= l
    ensures 0 <= p < Columns(g, level)
  {
    if level > 1 then Labels.Owner(l, Columns(g, level)) else Labels.BlockOf(l, g.minimumBlockWidth, Columns(g, 1))
  }

  /** The label grid after descending from `level` to level - 1. */
  function DescendedLabels(g: Geometry, labels: seq<seq<int>>, level: int): (r: seq<seq<int>>)
    requires Valid(g) && 1 <= level <= g.levels && IsGrid(labels, g.height, g.width)
    ensures IsGrid(r, g.height, g.width)
  {
    if level > 1 then
      BlockNumberHalves(g, level - 1);
      Labels.Expand(labels, g.height, g.width, Rows(g, level), Columns(g, level), Rows(g, level - 1), Columns(g, level - 1))
    else
      Labels.ExpandToPixels(labels, g.height, g.width, Rows(g, 1), Columns(g, 1), g.minimumBlockHeight, g.minimumBlockWidth)
  }

  /** goDownOneLevel: the in-place expansion to the next block level, or the
      fill of pixel rectangles from level 1. */
  method GoDownOneLevel(e: Engine) returns (r: Engine)
    requires Invariant(e) && e.level >= 1
    ensures Invariant(r)
    ensures r == e.(level := e.level - 1, labels := DescendedLabels(e.geometry, e.labels, e.level))
    ensures forall k, l :: 0 <= k < Rows(e.geometry, r.level) && 0 <= l < Columns(e.geometry, r.level) ==>
      r.labels[k][l] == e.labels[ParentRow(e.geometry, e.level, k)][ParentColumn(e.geometry, e.level, l)]
  {
    var g := e.geometry;
    var labels: seq<seq<int>>;
    if e.level > 1 {
      BlockNumberHalves(g, e.level - 1);
      labels := Labels.GoDownInPlace(e.labels, g.height, g.width, Rows(g, e.level), Columns(g, e.level),
                                     Rows(g, e.level - 1), Columns(g, e.level - 1));
    } else {
      BlockNumbersPositive(g, 1);
      labels := Labels.GoDownToPixels(e.labels, g.height, g.width, Rows(g, 1), Columns(g, 1),
                                      g.minimumBlockHeight, g.minimumBlockWidth);
    }
    assert labels == DescendedLabels(g, e.labels, e.level);
    r := e.(level := e.level - 1, labels := labels);
    DescentKeepsInvariant(e, r);
  }

  lemma DescentKeepsInvariant(e: Engine, r: Engine)
    requires Invariant(e) && e.level >= 1
    requires r == e.(level := e.level - 1, labels := DescendedLabels(e.geometry, e.labels, e.level))
    ensures Invariant(r)
  {
    var g := e.geometry;
    if e.level > 1 {
      BlockNumberHalves(g, e.level - 1);
    }
    assert Shapes(r);
    assert StaticLevels(r);
    assert SuperpixelLevel(r);
    forall k, l | 0 <= k < Rows(g, r.level) && 0 <= l < Columns(g, r.level)
      ensures 0 <= r.labels[k][l] < NumberOfSuperpixels(g)
    {
      var a, b := ParentRow(g, e.level, k), ParentColumn(g, e.level, l);
      assert r.labels[k][l] == e.labels[a][b];
    }
  }

  // ---------------------------------------------------------------------
  // Sweeps and the whole optimisation.
  // ---------------------------------------------------------------------

  /** Marks every cell of the working grid for a visit. */
  method ReinitializeSpatialMemory(e: Engine) returns (r: Engine)
    requires Invariant(e)
    ensures Invariant(r) && Frame(e, r) && r.labels == e.labels && r.pyramid == e.pyramid
    ensures forall a, b :: 0 <= a < e.geometry.height && 0 <= b < e.geometry.width ==>
      r.memory[a][b] == (InGrid(e, a, b) || e.memory[a][b])
  {
    var g := e.geometry;
    var rows, cols := Rows(g, e.level), Columns(g, e.level);
    var memory := e.memory;
    var i := 0;
    while i < rows
      invariant 0 <= i <= rows
      invariant IsGrid(memory, g.height, g.width)
      invariant forall a, b :: 0 <= a < g.height && 0 <= b < g.width ==>
        memory[a][b] == ((a < i && b < cols) || e.memory[a][b])
    {
      var j := 0;
      while j < cols
        invariant 0 <= j <= cols
        invariant IsGrid(memory, g.height, g.width)
        invariant forall a, b :: 0 <= a < g.height && 0 <= b < g.width ==>
          memory[a][b] == ((a < i && b < cols) || (a == i && b < j) || e.memory[a][b])
      {
        memory := Set2(memory, i, j, true);
        j := j + 1;
      }
      i := i + 1;
    }
    r := e.(memory := memory);
  }

  /** One row-major pass of block updates over the working grid. */
  method BlockSweep(e: Engine) returns (r: Engine)
    requires Invariant(e) && e.level >= 1
    ensures Invariant(r) && Frame(e, r)
  {
    r := e;
    var rows, cols := Rows(e.geometry, e.level), Columns(e.geometry, e.level);
    var i := 0;
    while i < rows
      invariant 0 <= i <= rows
      invariant Invariant(r) && Frame(e, r)
    {
      var j := 0;
      while j < cols
        invariant 0 <= j <= cols
        invariant Invariant(r) && Frame(e, r)
      {
        r := PerformBlockUpdate(r, i, j);
        j := j + 1;
      }
      i := i + 1;
    }
  }

  /** One row-major pass of pixel updates over the image. */
  method PixelSweep(e: Engine) returns (r: Engine)
    requires Invariant(e) && e.level == 0
    ensures Invariant(r) && Frame(e, r)
  {
    r := e;
    var rows, cols := e.geometry.height, e.geometry.width;
    var i := 0;
    while i < rows
      invariant 0 <= i <= rows
      invariant Invariant(r) && Frame(e, r)
    {
      var j := 0;
      while j < cols
        invariant 0 <= j <= cols
        invariant Invariant(r) && Frame(e, r)
      {
        r := PerformPixelUpdate(r, i, j);
        j := j + 1;
      }
      i := i + 1;
    }
  }

  /** iterate: `iterations` block passes at every block level from the
      current one down to level 1, descending after each, then twice as
      many pixel passes. Ends at the pixel level with every pixel labelled
      by a superpixel and the superpixel counts still summing to width * height. */
  method Iterate(e: Engine, iterations: int) returns (r: Engine)
    requires Invariant(e)
    ensures Invariant(r) && r.level == 0
    ensures r.geometry == e.geometry && r.bins == e.bins && r.histogramSize == e.histogramSize
    ensures forall k :: 0 <= k < e.geometry.levels - 1 ==> r.pyramid[k] == e.pyramid[k]
    ensures forall i, j :: 0 <= i < e.geometry.height && 0 <= j < e.geometry.width ==>
      0 <= r.labels[i][j] < NumberOfSuperpixels(e.geometry)
    ensures GridTotal(r.pyramid[e.geometry.levels - 1].pixels) == Area(e.geometry.height, e.geometry.width)
  {
    r := e;
    while r.level > 0
      invariant Invariant(r)
      invariant r.geometry == e.geometry && r.bins == e.bins && r.histogramSize == e.histogramSize
      invariant |r.pyramid| == |e.pyramid| && forall k :: 0 <= k < e.geometry.levels - 1 ==> r.pyramid[k] == e.pyramid[k]
      decreases r.level
    {
      r := ReinitializeSpatialMemory(r);
      var level := r.level;
      var iteration := 0;
      while iteration < iterations
        invariant Invariant(r) && r.level >= 1
        invariant r.geometry == e.geometry && r.bins == e.bins && r.histogramSize == e.histogramSize
        invariant |r.pyramid| == |e.pyramid| && forall k :: 0 <= k < e.geometry.levels - 1 ==> r.pyramid[k] == e.pyramid[k]
        invariant r.level == level
      {
        r := BlockSweep(r);
        iteration := iteration + 1;
      }
      r := GoDownOneLevel(r);
    }
    r := ReinitializeSpatialMemory(r);
    var iteration := 0;
    while iteration < 2 * iterations
      invariant Invariant(r) && r.level == 0
      invariant r.geometry == e.geometry && r.bins == e.bins && r.histogramSize == e.histogramSize
      invariant |r.pyramid| == |e.pyramid| && forall k :: 0 <= k < e.geometry.levels - 1 ==> r.pyramid[k] == e.pyramid[k]
    {
      r := PixelSweep(r);
      iteration := iteration + 1;
    }
  }

  // ---------------------------------------------------------------------
  // Initialisation.
  // ---------------------------------------------------------------------

  /** A well-formed superpixel level is a valid set of accumulators. */
  lemma WellFormedSuperpixels(g: Geometry, lv: Level, size: int)
    requires Valid(g) && WellFormed(g, g.levels, lv, size)
    ensures Accumulators(lv, SuperpixelRows(g), SuperpixelColumns(g), size)
    ensures Conserving(lv, SuperpixelRows(g), SuperpixelColumns(g), size)
    ensures NonEmpty(lv, SuperpixelRows(g), SuperpixelColumns(g), size)
    ensures GridTotal(lv.pixels) == Area(g.height, g.width)
  {
    forall s, t | 0 <= s < SuperpixelRows(g) && 0 <= t < SuperpixelColumns(g)
      ensures lv.pixels[s][t] >= 1
    {
      WellFormedBounds(g, g.levels, lv, size, s, t);
    }
    WellFormedTotal(g, g.levels, lv, size);
    AreaIsProduct(g.height, g.width);
  }

  /** initialize: labels first (numbered superpixels, every memory cell
      marked, one level down), then the bins and the pyramid of block
      statistics. Every block of the level below the superpixels starts in
      the superpixel above it. */
  method Initialize(g: Geometry, img: Binning.Image, numberOfBins: int, mode: Binning.BinningMode,
                    neighborhoodSize: int, minimumConfidence: real) returns (e: Engine)
    requires Valid(g) && Binning.ValidImage(img) && img.height == g.height && img.width == g.width
    requires numberOfBins >= 1
    ensures Invariant(e) && e.level == g.levels - 1 && e.geometry == g
    ensures e.bins == Binning.HistogramBins(img, numberOfBins, mode)
    ensures e.histogramSize == Binning.HistogramSize(numberOfBins, img.channels)
    ensures e.pyramid == Build(g, e.bins, e.histogramSize, g.levels)
    ensures forall a, b :: 0 <= a < g.height && 0 <= b < g.width ==> e.memory[a][b]
    ensures forall k, l :: 0 <= k < Rows(g, g.levels - 1) && 0 <= l < Columns(g, g.levels - 1) ==>
      e.labels[k][l] == Labels.InitialLabel(ParentRow(g, g.levels, k), ParentColumn(g, g.levels, l), SuperpixelRows(g), SuperpixelColumns(g))
  {
    var labels := InitialLabels(g);
    var memory := AllMarked(g.height, g.width);
    var size, bins := InitialBins(g, img, numberOfBins, mode);
    InitialInvariant(g, size, bins, labels, memory, neighborhoodSize, minimumConfidence);
    e := Engine(g, size, bins, g.levels - 1, labels, memory, Build(g, bins, size, g.levels), neighborhoodSize, minimumConfidence);
  }

  /** A spatial memory with every cell marked. */
  function AllMarked(height: int, width: int): (m: seq<seq<bool>>)
    requires height >= 0 && width >= 0
    ensures IsGrid(m, height, width)
    ensures forall a, b :: 0 <= a < height && 0 <= b < width ==> m[a][b]
  {
    seq(height, a => seq(width, b => true))
  }

  /** initializeHistograms, first half: the bin of every pixel. */
  method InitialBins(g: Geometry, img: Binning.Image, numberOfBins: int, mode: Binning.BinningMode)
    returns (size: int, bins: seq<seq<int>>)
    requires Valid(g) && Binning.ValidImage(img) && img.height == g.height && img.width == g.width
    requires numberOfBins >= 1
    ensures size == Binning.HistogramSize(numberOfBins, img.channels) && size >= 1
    ensures bins == Binning.HistogramBins(img, numberOfBins, mode)
    ensures ValidBins(g, bins, size)
  {
    Binning.HistogramSizePositive(numberOfBins, img.channels);
    size := Binning.HistogramSize(numberOfBins, img.channels);
    bins := Binning.HistogramBins(img, numberOfBins, mode);
  }

  /** initializeLabels: numbers the superpixels row-major, then descends
      one level. */
  method InitialLabels(g: Geometry) returns (labels: seq<seq<int>>)
    requires Valid(g)
    ensures IsGrid(labels, g.height, g.width)
    ensures forall k, l :: 0 <= k < Rows(g, g.levels - 1) && 0 <= l < Columns(g, g.levels - 1) ==>
      0 <= labels[k][l] < NumberOfSuperpixels(g)
    ensures forall k, l :: 0 <= k < Rows(g, g.levels - 1) && 0 <= l < Columns(g, g.levels - 1) ==>
      labels[k][l] == Labels.InitialLabel(ParentRow(g, g.levels, k), ParentColumn(g, g.levels, l), SuperpixelRows(g), SuperpixelColumns(g))
  {
    var rows, cols := SuperpixelRows(g), SuperpixelColumns(g);
    var top := Labels.InitializeLabels(g.height, g.width, rows, cols);
    BlockNumberHalves(g, g.levels - 1);
    labels := Labels.GoDownInPlace(top, g.height, g.width, rows, cols, Rows(g, g.levels - 1), Columns(g, g.levels - 1));
    InitialLabelsOwned(g, top, labels);
  }

  /** After the first descent each block of the level below the superpixels
      carries the number of the superpixel above it. */
  lemma InitialLabelsOwned(g: Geometry, top: seq<seq<int>>, labels: seq<seq<int>>)
    requires Valid(g) && IsGrid(top, g.height, g.width)
    requires forall i, j :: 0 <= i < g.height && 0 <= j < g.width ==>
      top[i][j] == Labels.InitialLabel(i, j, SuperpixelRows(g), SuperpixelColumns(g))
    requires labels == DescendedLabels(g, top, g.levels)
    ensures forall k, l :: 0 <= k < Rows(g, g.levels - 1) && 0 <= l < Columns(g, g.levels - 1) ==>
      0 <= labels[k][l] < NumberOfSuperpixels(g)
    ensures forall k, l :: 0 <= k < Rows(g, g.levels - 1) && 0 <= l < Columns(g, g.levels - 1) ==>
      labels[k][l] == Labels.InitialLabel(ParentRow(g, g.levels, k), ParentColumn(g, g.levels, l), SuperpixelRows(g), SuperpixelColumns(g))
  {
    BlockNumberHalves(g, g.levels - 1);
    var rows, cols := SuperpixelRows(g), SuperpixelColumns(g);
    SuperpixelsFit(g);
    forall k, l | 0 <= k < Rows(g, g.levels - 1) && 0 <= l < Columns(g, g.levels - 1)
      ensures labels[k][l] == Labels.InitialLabel(ParentRow(g, g.levels, k), ParentColumn(g, g.levels, l), rows, cols)
    {
    }
    forall k, l | 0 <= k < Rows(g, g.levels - 1) && 0 <= l < Columns(g, g.levels - 1)
      ensures 0 <= labels[k][l] < rows * cols
    {
      Labels.InitialLabelsDecode(ParentRow(g, g.levels, k), ParentColumn(g, g.levels, l), rows, cols);
    }
  }

  /** A freshly built engine satisfies the invariant. */
  lemma InitialInvariant(g: Geometry, size: int, bins: seq<seq<int>>, labels: seq<seq<int>>, memory: seq<seq<bool>>,
                         neighborhoodSize: int, minimumConfidence: real)
    requires Valid(g) && size >= 1 && ValidBins(g, bins, size)
    requires IsGrid(labels, g.height, g.width) && IsGrid(memory, g.height, g.width)
    requires forall k, l :: 0 <= k < Rows(g, g.levels - 1) && 0 <= l < Columns(g, g.levels - 1) ==>
      0 <= labels[k][l] < NumberOfSuperpixels(g)
    ensures Invariant(Engine(g, size, bins, g.levels - 1, labels, memory, Build(g, bins, size, g.levels),
                             neighborhoodSize, minimumConfidence))
  {
    var p := Build(g, bins, size, g.levels);
    var e := Engine(g, size, bins, g.levels - 1, labels, memory, p, neighborhoodSize, minimumConfidence);
    assert Setup(e) && Shapes(e);
    assert LabelsInRange(e);
    InitialPyramid(g, size, bins);
    assert StaticLevels(e);
    assert SuperpixelLevel(e);
  }

  /** The pyramid built from the bins: static levels well formed, the top
      level a valid set of superpixel accumulators. */
  lemma InitialPyramid(g: Geometry, size: int, bins: seq<seq<int>>)
    requires Valid(g) && size >= 1 && ValidBins(g, bins, size)
    ensures var p := Build(g, bins, size, g.levels);
      && (forall k :: 0 <= k < g.levels - 1 ==> WellFormed(g, k + 1, p[k], size))
      && Accumulators(p[g.levels - 1], SuperpixelRows(g), SuperpixelColumns(g), size)
      && Conserving(p[g.levels - 1], SuperpixelRows(g), SuperpixelColumns(g), size)
      && NonEmpty(p[g.levels - 1], SuperpixelRows(g), SuperpixelColumns(g), size)
      && GridTotal(p[g.levels - 1].pixels) == Area(g.height, g.width)
  {
    BuildWellFormed(g, bins, size, g.levels);
    WellFormedSuperpixels(g, Build(g, bins, size, g.levels)[g.levels - 1], size);
  }
}
