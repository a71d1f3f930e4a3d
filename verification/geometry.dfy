/**
  Multi-resolution block geometry of the SEEDS pyramid.

  Level 1 is the finest block level (minimum block size), level `levels` is
  the superpixel level; each level doubles the block size of the one below.
  Block sizes are exact integer powers of two here, where the C++ code goes
  through `pow` on doubles.
 */
module Geometry {
  import opened Grids

  datatype Geometry = Geometry(
    width: int,
    height: int,
    levels: int,
    minimumBlockWidth: int,
    minimumBlockHeight: int)

  function Pow2(n: nat): (r: nat)
    ensures r >= 1
  {
    if n == 0 then 1 else 2 * Pow2(n - 1)
  }

  /** m doubled n times. */
  function Doubled(m: int, n: nat): int {
    if n == 0 then m else 2 * Doubled(m, n - 1)
  }

  /** Doubling n times is multiplying by 2^n. */
  lemma {:induction false} DoubledIsPower(m: int, n: nat)
    ensures Doubled(m, n) == m * Pow2(n)
  {
    if n > 0 {
      DoubledIsPower(m, n - 1);
      Associate(2, m, Pow2(n - 1));
    }
  }

  lemma {:induction false} DoubledMonotone(m: int, a: nat, b: nat)
    requires m > 0 && a <= b
    ensures 0 < Doubled(m, a) <= Doubled(m, b)
    decreases b
  {
    if a < b {
      DoubledMonotone(m, a, b - 1);
    } else if a > 0 {
      DoubledMonotone(m, a - 1, a - 1);
    }
  }

  /** The engine's standing assumptions on its geometry: a positive image,
      at least two levels, positive minimum blocks, and superpixel blocks
      that fit inside the image. */
  predicate Valid(g: Geometry) {
    && g.width > 0
    && g.height > 0
    && g.levels >= 2
    && g.minimumBlockWidth > 0
    && g.minimumBlockHeight > 0
    && Doubled(g.minimumBlockWidth, g.levels - 1) <= g.width
    && Doubled(g.minimumBlockHeight, g.levels - 1) <= g.height
  }

  predicate IsLevel(g: Geometry, level: int) {
    1 <= level <= g.levels
  }

  /** Block width at a level: the minimum block width doubled once per
      level above the first. */
  function BlockWidth(g: Geometry, level: int): (b: int)
    requires Valid(g) && IsLevel(g, level)
    ensures b >= g.minimumBlockWidth > 0
  {
    DoubledMonotone(g.minimumBlockWidth, 0, level - 1);
    Doubled(g.minimumBlockWidth, level - 1)
  }

  function BlockHeight(g: Geometry, level: int): (b: int)
    requires Valid(g) && IsLevel(g, level)
    ensures b >= g.minimumBlockHeight > 0
  {
    DoubledMonotone(g.minimumBlockHeight, 0, level - 1);
    Doubled(g.minimumBlockHeight, level - 1)
  }

  /** Number of whole blocks of level `level` across the image; the last
      column of blocks absorbs the remainder. Each level has half as many
      (rounded down) as the one below. */
  function BlockWidthNumber(g: Geometry, level: int): int
    requires Valid(g) && IsLevel(g, level)
    decreases level
  {
    if level == 1 then g.width / g.minimumBlockWidth else BlockWidthNumber(g, level - 1) / 2
  }

  function BlockHeightNumber(g: Geometry, level: int): int
    requires Valid(g) && IsLevel(g, level)
    decreases level
  {
    if level == 1 then g.height / g.minimumBlockHeight else BlockHeightNumber(g, level - 1) / 2
  }

  /** Block sizes are the minimum sizes times 2^(level - 1), and block
      numbers are the image size divided by the block size. */
  lemma {:induction false} BlockFormulas(g: Geometry, level: int)
    requires Valid(g) && IsLevel(g, level)
    ensures BlockWidth(g, level) == g.minimumBlockWidth * Pow2(level - 1)
    ensures BlockHeight(g, level) == g.minimumBlockHeight * Pow2(level - 1)
    ensures BlockWidthNumber(g, level) == g.width / BlockWidth(g, level)
    ensures BlockHeightNumber(g, level) == g.height / BlockHeight(g, level)
    decreases level
  {
    DoubledIsPower(g.minimumBlockWidth, level - 1);
    DoubledIsPower(g.minimumBlockHeight, level - 1);
    if level > 1 {
      BlockFormulas(g, level - 1);
      DoubledMonotone(g.minimumBlockWidth, 0, level - 2);
      DoubledMonotone(g.minimumBlockHeight, 0, level - 2);
      DivDiv(g.width, BlockWidth(g, level - 1), 2);
      DivDiv(g.height, BlockHeight(g, level - 1), 2);
    }
  }

  /** Block sizes double from one level to the next. */
  lemma BlockSizeDoubles(g: Geometry, level: int)
    requires Valid(g) && IsLevel(g, level) && level < g.levels
    ensures BlockWidth(g, level + 1) == 2 * BlockWidth(g, level)
    ensures BlockHeight(g, level + 1) == 2 * BlockHeight(g, level)
    ensures BlockWidth(g, 1) == g.minimumBlockWidth && BlockHeight(g, 1) == g.minimumBlockHeight
  {
  }

  /** Integer division is determined by quotient and remainder. */
  lemma DivUnique(x: int, d: int, q: int, r: int)
    requires d > 0 && 0 <= r < d && x == d * q + r
    ensures x / d == q
  {
    var q', r' := x / d, x % d;
    assert x == d * q' + r' && 0 <= r' < d;
    assert d * (q' - q) == r - r';
    MulAwayFromZero(d, q' - q);
  }

  /** A non-zero multiple of d is at least d away from zero. */
  lemma MulAwayFromZero(d: int, k: int)
    requires d > 0
    ensures k >= 1 ==> d * k >= d
    ensures k <= -1 ==> d * k <= -d
  {
    assert d * k - d == d * (k - 1);
    assert d * k + d == d * (k + 1);
  }

  lemma Distribute(a: int, b: int, c: int)
    ensures a * (b + c) == a * b + a * c
  {
  }

  lemma Associate(a: int, b: int, c: int)
    ensures a * (b * c) == (a * b) * c
  {
  }

  /** Floor division by a product is floor division by each factor in turn. */
  lemma DivDiv(x: int, a: int, c: int)
    requires x >= 0 && a > 0 && c > 0
    ensures x / (a * c) == (x / a) / c
  {
    var q := x / a;
    var r := x % a;
    var q2 := q / c;
    var r2 := q % c;
    assert x == a * q + r && 0 <= r < a;
    assert q == c * q2 + r2 && 0 <= r2 < c;
    assert x == (a * c) * q2 + (a * r2 + r) by {
      Distribute(a, c * q2, r2);
      Associate(a, c, q2);
    }
    assert 0 <= a * r2 + r < a * c by {
      MulMonotone(a, r2, c - 1);
      Distribute(a, c, -1);
      MulMonotone(a, 0, r2);
    }
    DivUnique(x, a * c, q2, a * r2 + r);
  }

  /** Unfolds the recursive block counts one level up, with the bounds the
      child indexing needs. */
  lemma BlockNumberHalves(g: Geometry, level: int)
    requires Valid(g) && IsLevel(g, level) && level < g.levels
    ensures BlockWidthNumber(g, level + 1) == BlockWidthNumber(g, level) / 2
    ensures BlockHeightNumber(g, level + 1) == BlockHeightNumber(g, level) / 2
    ensures 2 * BlockWidthNumber(g, level + 1) <= BlockWidthNumber(g, level) <= 2 * BlockWidthNumber(g, level + 1) + 1
    ensures 2 * BlockHeightNumber(g, level + 1) <= BlockHeightNumber(g, level) <= 2 * BlockHeightNumber(g, level + 1) + 1
  {
  }

  /** In the closed form the block counts are computed by (image size divided
      by block size), going one level up halves the count, rounding down:
      every parent block has two children per axis, plus at most one ragged
      extra child on the last row and the last column. */
  lemma QuotientsHalve(g: Geometry, level: int)
    requires Valid(g) && IsLevel(g, level) && level < g.levels
    ensures g.width / BlockWidth(g, level + 1) == (g.width / BlockWidth(g, level)) / 2
    ensures g.height / BlockHeight(g, level + 1) == (g.height / BlockHeight(g, level)) / 2
    ensures 2 * (g.width / BlockWidth(g, level + 1)) <= g.width / BlockWidth(g, level)
                                                  <= 2 * (g.width / BlockWidth(g, level + 1)) + 1
    ensures 2 * (g.height / BlockHeight(g, level + 1)) <= g.height / BlockHeight(g, level)
                                                    <= 2 * (g.height / BlockHeight(g, level + 1)) + 1
  {
    BlockFormulas(g, level);
    BlockFormulas(g, level + 1);
  }

  /** Every level has at least one block per axis, and its blocks fit in the image. */
  lemma BlockNumbersPositive(g: Geometry, level: int)
    requires Valid(g) && IsLevel(g, level)
    ensures 1 <= BlockWidth(g, level) && 1 <= BlockHeight(g, level)
    ensures 1 <= BlockWidthNumber(g, level) && 1 <= BlockHeightNumber(g, level)
    ensures BlockWidthNumber(g, level) * BlockWidth(g, level) <= g.width
    ensures BlockHeightNumber(g, level) * BlockHeight(g, level) <= g.height
    ensures BlockWidthNumber(g, level) <= g.width && BlockHeightNumber(g, level) <= g.height
  {
    BlockFormulas(g, level);
    DoubledMonotone(g.minimumBlockWidth, level - 1, g.levels - 1);
    DoubledMonotone(g.minimumBlockHeight, level - 1, g.levels - 1);
    QuotientBounds(g.width, BlockWidth(g, level));
    QuotientBounds(g.height, BlockHeight(g, level));
  }

  lemma MulMonotone(a: int, b: int, c: int)
    requires a >= 0 && b <= c
    ensures a * b <= a * c
  {
    assert a * c - a * b == a * (c - b);
  }

  /** First row (column) past block i of `number` blocks of `size`: the last
      block stretches to the border `total`. */
  function SpanEnd(i: int, number: int, size: int, total: int): int {
    if i == number - 1 then total else (i + 1) * size
  }

  /** A non-negative x below d * n has a quotient by d below n. */
  lemma DivBelow(x: int, d: int, n: int)
    requires d > 0 && 0 <= x < d * n
    ensures 0 <= x / d < n
  {
    var q := x / d;
    assert x == d * q + x % d;
    if q >= n {
      MulMonotone(d, n, q);
    }
  }

  /** For 0 < d <= x the quotient is at least one, at most x, and q * d <= x. */
  lemma QuotientBounds(x: int, d: int)
    requires 0 < d <= x
    ensures 1 <= x / d <= x
    ensures (x / d) * d <= x
  {
    var q := x / d;
    var r := x % d;
    assert x == d * q + r && 0 <= r < d;
    assert q * d <= x;
    MulMonotone(q, 1, d);
  }

  /** Number of superpixels: the block counts at the superpixel level,
      multiplied (as an `Area`, see `SuperpixelsFit`). */
  function NumberOfSuperpixels(g: Geometry): (n: int)
    requires Valid(g)
    ensures n >= 1
  {
    BlockNumbersPositive(g, g.levels);
    AreaIsProduct(BlockHeightNumber(g, g.levels), BlockWidthNumber(g, g.levels));
    MulMonotone(BlockHeightNumber(g, g.levels), 1, BlockWidthNumber(g, g.levels));
    Area(BlockHeightNumber(g, g.levels), BlockWidthNumber(g, g.levels))
  }

  /** The superpixels are the rows x columns of the superpixel grid, and
      their blocks fit inside the image. */
  lemma SuperpixelsFit(g: Geometry)
    requires Valid(g)
    ensures NumberOfSuperpixels(g) == BlockHeightNumber(g, g.levels) * BlockWidthNumber(g, g.levels)
    ensures NumberOfSuperpixels(g) * (BlockWidth(g, g.levels) * BlockHeight(g, g.levels)) <= g.width * g.height
  {
    BlockNumbersPositive(g, g.levels);
    var w := BlockWidthNumber(g, g.levels);
    var h := BlockHeightNumber(g, g.levels);
    AreaIsProduct(h, w);
    ProductBound(h, w, BlockHeight(g, g.levels), BlockWidth(g, g.levels), g.height, g.width);
  }

  /** h blocks of height bh and w blocks of width bw inside a height x width
      image cover at most its area. */
  lemma ProductBound(h: int, w: int, bh: int, bw: int, height: int, width: int)
    requires h >= 0 && w >= 0 && bh >= 0 && bw >= 0
    requires h * bh <= height && w * bw <= width
    ensures (h * w) * (bw * bh) <= width * height
  {
    assert (h * w) * (bw * bh) == (w * bw) * (h * bh);
    MulMonotone(h * bh, w * bw, width);
    MulMonotone(width, h * bh, height);
  }

  // ---------------------------------------------------------------------
  // Resolving a desired number of superpixels to a geometry.
  // ---------------------------------------------------------------------

  /** The minimum block sizes the search tries, in search order. */
  const BlockSizes: seq<int> := [2, 3, 4]

  /** Highest number of levels the search tries. */
  const MaximumLevels: int := 12

  datatype Resolution = Resolution(levels: int, minimumBlockWidth: int, minimumBlockHeight: int)

  /** (w, h, l) is one of the combinations the search considers. */
  predicate IsCandidate(w: int, h: int, l: int) {
    && 2 <= w <= 4 && 2 <= h <= 4
    && -1 <= w - h <= 1
    && 2 <= l <= MaximumLevels
  }

  /** (w, h, l) comes before (cw, ch, cl) in the search order: w outermost,
      then h, then l. */
  predicate SearchedBefore(w: int, h: int, l: int, cw: int, ch: int, cl: int) {
    w < cw || (w == cw && (h < ch || (h == ch && l < cl)))
  }

  function Abs(x: int): int { if x < 0 then -x else x }

  /** Superpixel count that minimum blocks w x h and l levels yield. */
  function SuperpixelsFor(width: int, height: int, w: int, h: int, l: int): int
    requires width >= 0 && height >= 0 && w > 0 && h > 0 && l >= 1
  {
    (width / (w * Pow2(l - 1))) * (height / (h * Pow2(l - 1)))
  }

  function Difference(width: int, height: int, desired: int, w: int, h: int, l: int): int
    requires width >= 0 && height >= 0 && w > 0 && h > 0 && l >= 1
  {
    Abs(desired - SuperpixelsFor(width, height, w, h, l))
  }

  /** Exhaustive search over the candidates, in the constructor's loop order,
      keeping the first combination of smallest difference. */
  method ResolveGeometry(width: int, height: int, desired: int) returns (r: Resolution)
    requires width >= 0 && height >= 0
    ensures IsCandidate(r.minimumBlockWidth, r.minimumBlockHeight, r.levels)
    ensures forall w, h, l :: IsCandidate(w, h, l) ==>
      Difference(width, height, desired, r.minimumBlockWidth, r.minimumBlockHeight, r.levels)
        <= Difference(width, height, desired, w, h, l)
    ensures forall w, h, l ::
      (IsCandidate(w, h, l) && SearchedBefore(w, h, l, r.minimumBlockWidth, r.minimumBlockHeight, r.levels)) ==>
      Difference(width, height, desired, r.minimumBlockWidth, r.minimumBlockHeight, r.levels)
        < Difference(width, height, desired, w, h, l)
    ensures (exists w, h, l :: IsCandidate(w, h, l) && Difference(width, height, desired, w, h, l) < Abs(desired)) ==>
      Valid(Geometry(width, height, r.levels, r.minimumBlockWidth, r.minimumBlockHeight))
  {
    var best := Best(-1, 0, 0, 0);
    var wi := 0;
    while wi < 3
      invariant 0 <= wi <= 3
      invariant best.difference < 0 <==> wi == 0
      invariant SearchState(width, height, desired, best, wi + 2, 2, 2)
    {
      assert BlockSizes[wi] == wi + 2;
      best := SearchHeights(width, height, desired, BlockSizes[wi], best);
      wi := wi + 1;
    }
    SearchComplete(width, height, desired, best);
    r := Resolution(best.levels, best.blockWidth, best.blockHeight);
    if exists w, h, l :: IsCandidate(w, h, l) && Difference(width, height, desired, w, h, l) < Abs(desired) {
      CandidateValid(width, height, r.minimumBlockWidth, r.minimumBlockHeight, r.levels);
    }
  }

  /** The geometry a candidate yields satisfies the engine's assumptions
      exactly when it has at least one superpixel, and then the engine's
      superpixel count is the count the search scored it by. */
  lemma CandidateValid(width: int, height: int, w: int, h: int, l: int)
    requires width >= 0 && height >= 0 && IsCandidate(w, h, l)
    ensures SuperpixelsFor(width, height, w, h, l) >= 0
    ensures Valid(Geometry(width, height, l, w, h)) <==> SuperpixelsFor(width, height, w, h, l) >= 1
    ensures Valid(Geometry(width, height, l, w, h)) ==>
      NumberOfSuperpixels(Geometry(width, height, l, w, h)) == SuperpixelsFor(width, height, w, h, l)
  {
    DoubledIsPower(w, l - 1);
    DoubledIsPower(h, l - 1);
    var bw, bh := w * Pow2(l - 1), h * Pow2(l - 1);
    MulMonotone(w, 1, Pow2(l - 1));
    MulMonotone(h, 1, Pow2(l - 1));
    var qa, qb := width / bw, height / bh;
    if bw <= width {
      QuotientBounds(width, bw);
    } else {
      DivBelow(width, bw, 1);
    }
    if bh <= height {
      QuotientBounds(height, bh);
    } else {
      DivBelow(height, bh, 1);
    }
    if qa >= 1 && qb >= 1 {
      MulMonotone(qa, 1, qb);
    }
    assert SuperpixelsFor(width, height, w, h, l) == qa * qb;
    var g := Geometry(width, height, l, w, h);
    if Valid(g) {
      SuperpixelsFit(g);
      BlockFormulas(g, l);
    }
  }

  /** The constructor's middle loop: all minimum block heights for one
      minimum block width. */
  method SearchHeights(width: int, height: int, desired: int, w: int, best0: Best) returns (best: Best)
    requires width >= 0 && height >= 0 && 2 <= w <= 4
    requires best0.difference < 0 <==> w == 2
    requires SearchState(width, height, desired, best0, w, 2, 2)
    ensures best.difference >= 0
    ensures SearchState(width, height, desired, best, w + 1, 2, 2)
  {
    best := best0;
    var hi := 0;
    while hi < 3
      invariant 0 <= hi <= 3
      invariant best.difference < 0 <==> w == 2 && hi == 0
      invariant SearchState(width, height, desired, best, w, hi + 2, 2)
    {
      assert BlockSizes[hi] == hi + 2;
      if Abs(w - BlockSizes[hi]) <= 1 {
        best := SearchLevels(width, height, desired, w, BlockSizes[hi], best);
        ScanSkip(width, height, desired, best, w, hi + 2, MaximumLevels + 1, w, hi + 3, 2);
      } else {
        ScanSkip(width, height, desired, best, w, hi + 2, 2, w, hi + 3, 2);
      }
      hi := hi + 1;
    }
    ScanSkip(width, height, desired, best, w, 5, 2, w + 1, 2, 2);
  }

  /** Once every candidate has been searched, the recorded best is the first minimiser. */
  lemma SearchComplete(width: int, height: int, desired: int, best: Best)
    requires width >= 0 && height >= 0
    requires best.difference >= 0
    requires SearchState(width, height, desired, best, 5, 2, 2)
    ensures IsCandidate(best.blockWidth, best.blockHeight, best.levels)
    ensures forall w, h, l :: IsCandidate(w, h, l) ==>
      Difference(width, height, desired, best.blockWidth, best.blockHeight, best.levels)
        <= Difference(width, height, desired, w, h, l)
    ensures forall w, h, l ::
      (IsCandidate(w, h, l) && SearchedBefore(w, h, l, best.blockWidth, best.blockHeight, best.levels)) ==>
      Difference(width, height, desired, best.blockWidth, best.blockHeight, best.levels)
        < Difference(width, height, desired, w, h, l)
  {
  }

  /** The best combination found so far; a negative difference means none yet. */
  datatype Best = Best(difference: int, levels: int, blockWidth: int, blockHeight: int)

  /** The constructor's innermost loop: all level counts for one block size pair. */
  method SearchLevels(width: int, height: int, desired: int, w: int, h: int, best0: Best) returns (best: Best)
    requires width >= 0 && height >= 0
    requires 2 <= w <= 4 && 2 <= h <= 4 && Abs(w - h) <= 1
    requires best0.difference < 0 ==> w == 2 && h == 2
    requires SearchState(width, height, desired, best0, w, h, 2)
    ensures best.difference >= 0
    ensures SearchState(width, height, desired, best, w, h, MaximumLevels + 1)
  {
    best := best0;
    var l := 2;
    while l < MaximumLevels + 1
      invariant 2 <= l <= MaximumLevels + 1
      invariant best.difference < 0 ==> l == 2 && w == 2 && h == 2
      invariant l > 2 ==> best.difference >= 0
      invariant SearchState(width, height, desired, best, w, h, l)
    {
      var difference := Difference(width, height, desired, w, h, l);
      if difference < best.difference || best.difference < 0 {
        ScanTake(width, height, desired, best, w, h, l);
        best := Best(difference, l, w, h);
      } else {
        ScanKeep(width, height, desired, best, w, h, l);
      }
      l := l + 1;
    }
  }

  /** Search state at position (cw, ch, cl): the recorded best (if any) is a
      candidate searched before the position, with its own difference; every
      candidate searched before the position differs at least as much, and
      strictly more when it was searched before the best. */
  ghost predicate SearchState(width: int, height: int, desired: int, best: Best, cw: int, ch: int, cl: int)
    requires width >= 0 && height >= 0
  {
    && (best.difference >= 0 ==>
          && IsCandidate(best.blockWidth, best.blockHeight, best.levels)
          && SearchedBefore(best.blockWidth, best.blockHeight, best.levels, cw, ch, cl)
          && best.difference == Difference(width, height, desired, best.blockWidth, best.blockHeight, best.levels))
    && (forall w, h, l :: (IsCandidate(w, h, l) && SearchedBefore(w, h, l, cw, ch, cl)) ==>
          best.difference <= Difference(width, height, desired, w, h, l))
    && (forall w, h, l ::
          (IsCandidate(w, h, l) && SearchedBefore(w, h, l, cw, ch, cl)
           && SearchedBefore(w, h, l, best.blockWidth, best.blockHeight, best.levels)) ==>
          best.difference < Difference(width, height, desired, w, h, l))
  }

  /** Taking the candidate at the search position as the new best. */
  lemma ScanTake(width: int, height: int, desired: int, best: Best, cw: int, ch: int, cl: int)
    requires width >= 0 && height >= 0
    requires IsCandidate(cw, ch, cl)
    requires SearchState(width, height, desired, best, cw, ch, cl)
    requires best.difference < 0 ==> cw == 2 && ch == 2 && cl == 2
    requires best.difference < 0 || Difference(width, height, desired, cw, ch, cl) < best.difference
    ensures SearchState(width, height, desired, Best(Difference(width, height, desired, cw, ch, cl), cl, cw, ch), cw, ch, cl + 1)
  {
  }

  /** Keeping the recorded best when the candidate at the search position is no better. */
  lemma ScanKeep(width: int, height: int, desired: int, best: Best, cw: int, ch: int, cl: int)
    requires width >= 0 && height >= 0
    requires IsCandidate(cw, ch, cl)
    requires SearchState(width, height, desired, best, cw, ch, cl)
    requires best.difference >= 0
    requires best.difference <= Difference(width, height, desired, cw, ch, cl)
    ensures SearchState(width, height, desired, best, cw, ch, cl + 1)
  {
  }

  /** Moving the search position past positions that hold no candidate. */
  lemma ScanSkip(width: int, height: int, desired: int, best: Best,
                 cw: int, ch: int, cl: int, nw: int, nh: int, nl: int)
    requires width >= 0 && height >= 0
    requires SearchState(width, height, desired, best, cw, ch, cl)
    requires || (nw == cw && nh == ch + 1 && nl == 2 && (cl == MaximumLevels + 1 || (cl == 2 && Abs(cw - ch) > 1)))
             || (nw == cw + 1 && nh == 2 && nl == 2 && ch == 5 && cl == 2)
    ensures SearchState(width, height, desired, best, nw, nh, nl)
  {
  }
}
