# SEEDS superpixels (revised implementation), modelled in Dafny

This project models the integer heart of the SEEDS superpixel engine.
SEEDS (Superpixels Extracted via Energy-Driven Sampling) starts from a
regular grid of superpixels. It then moves blocks of pixels, and at last
single pixels, between neighbouring superpixels whenever the move makes the
colour histograms more homogeneous. The model covers three parts:

- **Geometry** (`geometry.dfy`, module `Geometry`):
  - block sizes and block counts per level;
  - the number of superpixels;
  - the search that picks the minimum block size and the number of levels
    for a desired number of superpixels.
- **Binning and the pyramid** (`binning.dfy`, `pyramid.dfy`):
  - the histogram bin of every pixel, under equalized and uniform binning;
  - the level-1 block histograms and pixel counts, with the ragged last
    row and column;
  - every higher level, built by summing children.
- **The label-grid engine** (`labels.dfy`, `split.dfy`, `scoring.dfy`,
  `moves.dfy`, `engine.dfy`):
  - initial labels and the coarse-to-fine descent, including the in-place
    expansion;
  - block and pixel moves with their guards;
  - the four 3×3 split checks;
  - the spatial memory ("dirty bits");
  - the acceptance rules, with histogram-intersection and pixel-probability
    scores computed exactly over `real`;
  - the smoothing prior's window counting.
- **Integrity helpers** (`integrity.dfy`): counting distinct labels,
  canonical relabelling, and the contour-pixel predicate.

The engine's state is an immutable record, `Seeds.Engine`. Each source
operation is a pure function or a method on that record, and each one
preserves `Seeds.Invariant`, which is made of:

- geometry valid;
- grids of the right shapes;
- every block level below the top equal to the level built from the
  image's bins (`Pyramid.Build`), and well formed (histograms sum to
  counts, counts equal the ragged block area);
- the superpixel level conserving (every histogram sums to its count),
  non-empty, and with counts summing to width·height;
- every working label cell holding a valid superpixel label.

The source checks these invariants with `DEBUG` assertions. Here they are
proof obligations.

Scores are computed over `real`, which is exact, where the source uses
`float`. A histogram-intersection score is a sum of minima of ratios,
and a pixel score is a ratio. Every denominator the invariant allows is
positive, so no division by zero arises.

The source compiles to one policy through `#define` toggles: spatial
memory on (`MEMORY`), `HEURISTIC_MEMORY` off, and equalized binning
unless `UNIFORM` is set. That policy is what is modelled. Both binning
modes exist as functions, selected by `Binning.BinningMode`.
`minimumNumberOfSublabels` is the constant 1 set at
lib/SeedsRevised.cpp:134.

Three notes on the code as written, which the model follows:

- **Split-check masking.** The split checks mask neighbours using the
  image height and width, even when working at a block level
  (lib/SeedsRevised.h:667-900). The model does the same: the `Split.Mask*`
  functions receive the image dimensions.
- **Block guard.** `performBlockUpdate` moves a block only when the
  integer quotient of the superpixel's count by the block's count exceeds
  `minimumNumberOfSublabels` (lib/SeedsRevised.cpp:750-751).
  `Seeds.BlockGuard` states this as "at least two blocks' worth of
  pixels", and `Seeds.GuardIsQuotient` proves that the two tests agree.
- **Row-major scans.** `countSuperpixels` and `relabel` scan the grid with
  two nested loops. Their facts are stated over the row-major flattening
  `Grids.Flatten`. The methods keep the nested loops.

Pixel totals and the superpixel count use `Grids.Area`, which is rows·cols
added row by row; `Grids.AreaIsProduct` proves it equals the product.

## Model

| member | source | states |
|---|---|---|
| Geometry.BlockFormulas | lib/SeedsRevised.cpp:303-333 | The block width at level l is minimumBlockWidth·2^(l−1), the block count is width / blockWidth(l), and the same for the height. |
| Geometry.QuotientsHalve | lib/SeedsRevised.cpp:311-333 | With the block counts computed as image size divided by block size, the count at level l+1 is the count at level l halved and rounded down, so 2·n(l+1) ≤ n(l) ≤ 2·n(l+1)+1 on both axes: each parent has children 2i and 2i+1, plus at most one ragged extra row or column. |
| Geometry.BlockNumbersPositive | lib/SeedsRevised.cpp:303-333 | At every level, block sizes and block counts are at least 1, and count × size never exceeds the image side. |
| Geometry.SuperpixelsFit | lib/SeedsRevised.cpp:990-992 | The number of superpixels is the product of the block counts at the superpixel level. That many superpixel-sized blocks fit inside width·height. |
| Geometry.ResolveGeometry | lib/SeedsRevised.cpp:73-112 | The search returns a candidate: w, h in {2,3,4} with \|w−h\| ≤ 1 and 2 ≤ levels ≤ 12. No candidate has a smaller \|desired − superpixels\|, and every candidate scanned before it is strictly worse, so the first one found wins ties. When some candidate differs from the desired count by less than \|desired\|, the result is a valid geometry. |
| Geometry.CandidateValid | lib/SeedsRevised.cpp:94-111 | A candidate (w, h, l) yields a geometry satisfying the engine's assumptions exactly when it gives at least one superpixel, and then the engine's superpixel count equals the count the search scored it by. |
| Geometry.SearchHeights | lib/SeedsRevised.cpp:88-103 | One pass of the height loop for a fixed width. It extends the "best so far among all scanned candidates" state to the next width. |
| Geometry.SearchLevels | lib/SeedsRevised.cpp:93-102 | The level loop for fixed (w, h). It keeps the best candidate so far, replacing it only on a strictly smaller difference. |
| Binning.Denominator | lib/SeedsRevised.cpp:480 | The uniform-binning divisor is ceil(256 / numberOfBins): d·numberOfBins ≥ 256 > (d−1)·numberOfBins. |
| Binning.UniformBinInRange | lib/SeedsRevised.cpp:489-493 | Under uniform binning, value / denominator lies in [0, numberOfBins). |
| Binning.IntegralHistogram | lib/SeedsRevised.cpp:502-533 | The cumulative channel histogram of the subsampled pixels: entry v counts the samples ≤ v. |
| Binning.EquiHeight | lib/SeedsRevised.cpp:535 | The equalized bin height is at least 1 and is exactly the ceiling of (count+1)/numberOfBins: numberOfBins of them reach count+1, and one fewer bin height would not. |
| Binning.EqualizedBinInRange | lib/SeedsRevised.cpp:544-551 | Under equalized binning, cumulative count / equiHeight lies in [0, numberOfBins). |
| Binning.CombineInRange | lib/SeedsRevised.cpp:493 | Combining three channel bins as b0 + n·b1 + n²·b2 stays below n³. |
| Binning.HistogramBins | lib/SeedsRevised.cpp:474-557 | Every pixel's bin lies in [0, numberOfBins^channels). |
| Pyramid.TallyTotal | lib/SeedsRevised.cpp:609-614 | Counting pixels into a histogram gives bins that are non-negative and sum to the number of pixels counted. |
| Pyramid.SpanTotal | lib/SeedsRevised.cpp:591-602 | The ragged block spans of one axis add up to the full image side. |
| Pyramid.ChildSpans | lib/SeedsRevised.cpp:643-661 | A parent's span is the sum of its two children's spans, plus the ragged extra child on the last row or column. |
| Pyramid.FirstLevelWellFormed | lib/SeedsRevised.cpp:578-616 | Each level-1 block's count equals its ragged-rectangle area and the sum of its bins, and every bin is non-negative. |
| Pyramid.NextLevelWellFormed | lib/SeedsRevised.cpp:627-718 | Summing children keeps the invariant: each higher-level count equals the parent's ragged area and the sum of its bins. |
| Pyramid.AboveBlockArea | lib/SeedsRevised.cpp:643-661 | A higher-level block's count, the sum of its children's counts, equals its row span times its column span. |
| Pyramid.SumHistogramsTotal | lib/SeedsRevised.cpp:663-683 | Bin-wise summing of children's histograms gives a histogram whose total is the sum of the children's counts. |
| Pyramid.BuildWellFormed | lib/SeedsRevised.cpp:572-718 | Every level of the built pyramid satisfies the conservation law sum(bins) == count, with counts equal to block areas. |
| Pyramid.WellFormedBounds | lib/SeedsRevised.cpp:684-718 | At every level, count ≥ blockWidth·blockHeight ≥ 1, and every bin lies between 0 and the count. |
| Pyramid.WellFormedTotal | lib/SeedsRevised.cpp:578-616 | The counts of any well-formed level add up to width·height. |
| Labels.InitializeLabels | lib/SeedsRevised.cpp:263-286 | Cell (i, j) gets i·superpixelWidthNumber + j inside the superpixel grid and −1 elsewhere. |
| Labels.DecodeInRange | lib/SeedsRevised.h:627-653 | For 0 ≤ label < rows·columns, the decoded row label / W and column label % W are in range, and row·W + column == label. |
| Labels.EncodeDecode | lib/SeedsRevised.h:627-653 | Decoding i·W + j gives back (i, j). |
| Labels.OwnerIff | lib/SeedsRevised.cpp:347-379 | Row k of the finer grid belongs to parent i exactly when k ∈ {2i, 2i+1}, or i is the last parent and k lies beyond 2i+1. |
| Labels.ExpandInherits | lib/SeedsRevised.cpp:347-379 | After expansion, every child cell of parent (i, j) holds the parent's old label. |
| Labels.GoDownInPlace | lib/SeedsRevised.cpp:347-379 | The reverse-order, in-place expansion gives exactly the expanded grid, so no parent is overwritten before it is read. |
| Labels.DescendStep | lib/SeedsRevised.cpp:349-377 | Writing the children of parent (i, j) in reverse scan order keeps every parent still to be read intact. |
| Labels.BlockOfIff | lib/SeedsRevised.cpp:399-420 | Pixel row k belongs to block i exactly when i·blockHeight ≤ k < (i+1)·blockHeight, or i is the last block. |
| Labels.GoDownToPixels | lib/SeedsRevised.cpp:387-423 | Every pixel gets the label of block (min(k/minimumBlockHeight, n−1), min(l/minimumBlockWidth, m−1)). |
| Split.UniformNeverSplits | lib/SeedsRevised.h:667-900 | Away from the image border, a cell whose whole 3×3 neighbourhood shares its label makes none of the four split checks fire. |
| Split.BackwardIsFlippedForward | lib/SeedsRevised.h:667-789 | The vertical-backward check is the vertical-forward check on the neighbourhood flipped upside down. |
| Split.HorizontalForwardIsTransposed | lib/SeedsRevised.h:667-851 | The horizontal-forward check is the vertical-forward check on the transposed neighbourhood. |
| Split.HorizontalBackwardIsTransposed | lib/SeedsRevised.h:729-900 | The horizontal-backward check is the vertical-backward check on the transposed neighbourhood. |
| Split.ReadTransposed | lib/SeedsRevised.h:667-900 | Reading the 3×3 window of the transposed grid gives the transposed window. |
| Scoring.BlockScoresInUnitRange | lib/SeedsRevised.h:381-427 | The current and proposed block scores, as sums of bin-wise minima of probabilities, lie in [0, 1]. |
| Scoring.BlockScoresBounded | lib/SeedsRevised.h:381-427 | Each block score lies between 0 and the block's histogram mass divided by its pixel count. |
| Scoring.PixelScore | lib/SeedsRevised.h:495-520 | A pixel score is the superpixel's frequency of the pixel's bin, and it lies in [0, 1] when the bin count is within the pixel count. |
| Scoring.SmoothingWindow | lib/SeedsRevised.h:543-547 | The smoothing window is the neighborhoodSize-enlarged box around both cells, clamped to the working grid, and it contains both cells. |
| Scoring.WindowCounts | lib/SeedsRevised.h:549-558 | The loop counts the cells of labelFrom in the window, and the cells of labelTo unless the two labels coincide. |
| Scoring.RectCountsBounded | lib/SeedsRevised.h:549-558 | The counts for two different labels add up to at most the window area. |
| Scoring.PixelUpdateScoreProperties | lib/SeedsRevised.h:533-565 | When labelFrom ≠ labelTo, both counts are ≥ 1 and their sum is at most the window area. With neighborhoodSize 0 the score is exactly proposed − current. |
| Moves.Transfer | lib/SeedsRevised.h:448-454 | Moving (count, hist) between two accumulators takes exactly that from the source and gives it to the destination. It changes no other accumulator, keeps the grand total, and keeps every accumulator non-empty when the source had more than count. |
| Moves.TransferConserves | lib/SeedsRevised.h:472-481 | When the moved histogram sums to the moved count, sum(bins) == count still holds for every accumulator. |
| Moves.MovePixel | lib/SeedsRevised.h:586-590 | A pixel move changes only bin `bin`, by −1/+1, and the counts by −1/+1, keeping conservation, the total, and non-emptiness when the source had more than one pixel. |
| Moves.NeighboursOf | lib/SeedsRevised.cpp:731-734 | The neighbours are clamped to the working grid: i±1 when inside, otherwise i itself. |
| Moves.MarkMoved | lib/SeedsRevised.h:464-468 | After a move, the moved cell and its four clamped neighbours are dirty, and every other cell keeps its dirty bit. |
| Seeds.UpdateBlock | lib/SeedsRevised.h:445-483 | The block's label becomes the neighbour's label, no other label cell changes, the five cells are marked, and the engine invariant (conservation, non-emptiness, label range) still holds. |
| Seeds.UpdateBlockAccounts | lib/SeedsRevised.h:448-454 | The source superpixel loses the block's count and every bin of its histogram, and the destination gains them. Every other superpixel is untouched. |
| Seeds.BlockTransfer | lib/SeedsRevised.h:448-454 | The superpixel accumulators after a block move still conserve, stay non-empty, and have counts summing to width·height. |
| Seeds.UpdatePixel | lib/SeedsRevised.h:583-619 | The pixel's label becomes the neighbour's label, no other label cell changes, the five cells are marked, and the engine invariant still holds. |
| Seeds.UpdatePixelAccounts | lib/SeedsRevised.h:586-590 | The source loses one pixel and one unit of the pixel's bin, and the destination gains them. No other bin and no other superpixel changes. |
| Seeds.PixelTransfer | lib/SeedsRevised.h:586-590 | The superpixel accumulators after a pixel move still conserve, stay non-empty, and have counts summing to width·height. |
| Seeds.GuardIsQuotient | lib/SeedsRevised.cpp:750-751 | The integer quotient superpixel count / block count exceeds minimumNumberOfSublabels exactly when the superpixel holds at least (minimumNumberOfSublabels + 1) blocks' worth of pixels. This is the form `Seeds.BlockGuard` states. |
| Seeds.SelectFirstBest | lib/SeedsRevised.cpp:761-819 | Scanning the four candidates keeps the highest accepted score. On ties the earliest candidate in scan order wins. |
| Seeds.BlockChoiceFacts | lib/SeedsRevised.cpp:761-821 | A chosen block move targets one of the four neighbours and a different label, and its score beats the current score plus minimumConfidence. |
| Seeds.TryBlockMove | lib/SeedsRevised.cpp:742-823 | A block changes label only when its guard holds and the accepted proposal scores above both current + minimumConfidence and 0. The new label is a neighbour's, and the cell is then marked. Otherwise nothing changes. |
| Seeds.PerformBlockUpdate | lib/SeedsRevised.cpp:722-827 | Nothing happens unless the cell is dirty. A dirty cell whose label stays (all four neighbours share it, the guard fails, or no proposal is accepted) ends with only its bit cleared. Every move is guarded and accepted as above, and the invariant holds. |
| Seeds.PixelChoiceFacts | lib/SeedsRevised.cpp:874-938 | A chosen pixel move targets one of the four neighbours and a different label, with the smoothed score as its score. |
| Seeds.TryPixelMove | lib/SeedsRevised.cpp:856-941 | A pixel changes label only when its superpixel has more than one pixel and some neighbour's smoothed score is positive. Otherwise nothing changes. |
| Seeds.PerformPixelUpdate | lib/SeedsRevised.cpp:829-944 | Nothing happens unless the pixel is dirty, and a dirty pixel whose label stays ends with only its bit cleared. A move passes the pixel guard and takes the label of a neighbour whose smoothed score is positive, and keeps the invariant. |
| Seeds.GoDownOneLevel | lib/SeedsRevised.cpp:335-438 | The level drops by one and the invariant (all working labels valid) holds. Every cell (k, l) of the finer grid holds the old label of its parent: (min(k/2, oldH−1), min(l/2, oldW−1)) between block levels, or the pixel's block (min(k/bh, H−1), min(l/bw, W−1)) at level 0. |
| Seeds.ReinitializeSpatialMemory | lib/SeedsRevised.cpp:972-978 | Every cell of the current working grid becomes dirty. Cells outside it keep their bit, and labels and histograms are untouched. |
| Seeds.BlockSweep | lib/SeedsRevised.cpp:952-956 | A full row-major sweep of block updates keeps the invariant and the frame. |
| Seeds.PixelSweep | lib/SeedsRevised.cpp:964-968 | A full row-major sweep of pixel updates keeps the invariant and the frame. |
| Seeds.Iterate | lib/SeedsRevised.cpp:946-970 | Iterating ends at level 0 with every pixel carrying a valid superpixel label, the superpixel counts summing to width·height, and the block levels unchanged. |
| Seeds.Initialize | lib/SeedsRevised.cpp:239-301 | Initialization sets every spatial-memory cell dirty and builds the pyramid. After the first descent, every working cell carries the initial label of its parent, and the invariant holds. |
| Seeds.InitialLabels | lib/SeedsRevised.cpp:263-299 | The initial row-major labels, descended once, give valid labels inherited from the parents. |
| Seeds.WellFormedSuperpixels | lib/SeedsRevised.cpp:627-718 | The top pyramid level as built is a conserving, non-empty set of superpixel accumulators whose counts sum to width·height. |
| Integrity.CountSuperpixels | lib/Tools.cpp:209-246 | The result is the number of distinct labels of the grid, and 1 ≤ count ≤ rows·cols. |
| Integrity.Relabel | lib/Tools.cpp:248-279 | The relabelled grid, flattened row-major, equals the first-appearance renumbering of the original. |
| Integrity.RelabelCell | lib/Tools.cpp:266-272 | A label already in the table keeps its entry. A new label gets the next unused number, which is its first-appearance rank. |
| Integrity.RelabelPartition | lib/Tools.cpp:266-276 | Two cells share a label after relabelling exactly when they shared one before. |
| Integrity.RelabelCount | lib/Tools.cpp:248-279 | Relabelling keeps the number of distinct labels. |
| Integrity.RelabelKeepsCount | lib/Tools.cpp:209-279 | countSuperpixels gives the same number before and after relabel. |
| Integrity.RelabelIdempotent | lib/Tools.cpp:248-279 | Relabelling twice equals relabelling once. |
| Integrity.RelabelCanonical | lib/Tools.cpp:261-276 | Relabelled labels appear as 0, 1, 2, … in row-major order of first appearance. Each label is either already used or the next number. |
| Integrity.Rank | lib/Tools.cpp:266-272 | A label's new number lies in [0, k), where k is the number of distinct labels. |
| Integrity.ContourIff | lib/Tools.cpp:77-107 | A pixel is drawn as contour exactly when some in-bounds 4-neighbour has a different label. |
| Integrity.UniformHasNoContour | lib/Tools.cpp:77-107 | A grid carrying one label has no contour pixel. |

## Left out

- OpenCV image handling (conversion to 8-bit, BGR→Lab) is left out. The image is a given grid of 8-bit samples with 1 or 3 channels (`Binning.Image`).
- The `pow`-on-double block sizes are integer powers of two here (`Geometry.Pow2`, `Geometry.Doubled`).
- The mean-pixel variant `SEEDSRevisedMeanPixels` is left out: its scores are floating-point distances.
- `float` rounding is not modelled, because scores are exact reals. A comparison that floats would decide differently at a rounding boundary can therefore go differently here.
- The `#define` alternatives `HEURISTIC_MEMORY`, the `MEMORY`-off build and the `DEBUG` output are left out. Only the default policy is modelled, and the `DEBUG` assertions are proved as invariants.
- Manual allocation and the destructors are left out, because the grids are immutable sequences.
- `Draw::labelImage` (random colours), the pixel writes of `Draw::meanImage`/`Draw::contourImage`, `Export::CSV`, `Export::BSDEvaluationFile` and `cli/main.cpp` are left out. They do I/O or drawing; only the contour test is modelled, as `Integrity.OnContour`.
- In `countSuperpixels` and `relabel`, the label-indexed flag and renumbering arrays are a set and a map. The preliminary scan for the maximum label, which only sizes those arrays, is therefore omitted.
- `relabel` does not assert that labels are non-negative, but it indexes an array by label. The model therefore requires non-negative labels, as `countSuperpixels` asserts.
- Seeds.Iterate: the engine invariant says every label is valid and every superpixel is non-empty. It does not say that each superpixel's count equals the number of cells carrying its label. That partition link between labels and accumulators is not proved.
- Seeds.BlockTransfer: the accumulators are shown conserving, non-empty and summing to width·height; that each count equals the pixels carrying its label is not proved (see Seeds.Iterate).
- Seeds.PixelTransfer: as for Seeds.BlockTransfer, the counts are shown to sum to width·height, not to match the labelled cells one by one.
- Seeds.Initialize: requires a valid geometry, in particular at least one superpixel. The desired-count constructor can resolve to a geometry with no superpixels (for instance a desired count of 0, an image less than 4 pixels high or wide, or a very elongated image with a small desired count); the source then goes on with every label left at −1 and its `DEBUG` label check fails. That degenerate run is not modelled; `Geometry.CandidateValid` states exactly when a resolved geometry is valid.
- The number of bins is required to be at least 1 (`Binning.Denominator`, `Binning.EquiHeight`, `Seeds.Initialize`). The source divides by it in floating point without a check and converts the infinite quotient to `int` (lib/SeedsRevised.cpp:480 and 535); that undefined conversion for a zero bin count is not modelled.
- `neighborhoodSize` and `minimumConfidence` take any value the caller stores, as in the source; a negative confidence is allowed.
- After the search, the constructor calls `construct`, which only stores parameters. That call is not modelled separately.
