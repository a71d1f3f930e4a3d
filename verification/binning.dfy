/**
  Per-pixel histogram-bin assignment.

  Each channel sample (0..255) is mapped to one of `numberOfBins` bins, either
  by fixed-width (uniform) binning or by equalized binning driven by the
  cumulative distribution of a 1-in-25 pixel subsample; the channel bins are
  then combined into one index of a histogram of numberOfBins^channels bins.
 */
module Binning {
  import opened Grids
  import Geometry

  /** One pixel: its channel samples, 8-bit each. */
  type Pixel = seq<int>

  /** An image of `height` rows of `width` pixels with 1 or 3 channels. */
  datatype Image = Image(height: int, width: int, channels: int, samples: seq<seq<Pixel>>)

  predicate ValidImage(img: Image) {
    && img.height > 0 && img.width > 0
    && (img.channels == 1 || img.channels == 3)
    && IsGrid(img.samples, img.height, img.width)
    && forall i, j :: 0 <= i < img.height && 0 <= j < img.width ==> ValidPixel(img.samples[i][j], img.channels)
  }

  predicate ValidPixel(p: Pixel, channels: int) {
    |p| == channels && forall c :: 0 <= c < |p| ==> 0 <= p[c] <= 255
  }

  datatype BinningMode = Uniform | Equalized

  function Pow(b: int, e: nat): int {
    if e == 0 then 1 else b * Pow(b, e - 1)
  }

  /** Number of bins of the joint histogram, numberOfBins^channels. */
  function HistogramSize(numberOfBins: int, channels: nat): int {
    Pow(numberOfBins, channels)
  }

  /** With at least one bin per channel the joint histogram has at least one bin. */
  lemma {:induction false} HistogramSizePositive(numberOfBins: int, channels: nat)
    requires numberOfBins >= 1
    ensures HistogramSize(numberOfBins, channels) >= 1
    decreases channels
  {
    if channels > 0 {
      HistogramSizePositive(numberOfBins, channels - 1);
      Geometry.MulMonotone(Pow(numberOfBins, channels - 1), 1, numberOfBins);
    }
  }

  // ---------------------------------------------------------------------
  // Uniform binning.
  // ---------------------------------------------------------------------

  /** Width of a uniform bin: the ceiling of 256 / numberOfBins. */
  function Denominator(numberOfBins: int): (d: int)
    requires numberOfBins >= 1
    ensures d >= 1 && d * numberOfBins >= 256
    ensures (d - 1) * numberOfBins < 256
  {
    var d := (256 + numberOfBins - 1) / numberOfBins;
    assert 256 + numberOfBins - 1 == d * numberOfBins + (256 + numberOfBins - 1) % numberOfBins;
    d
  }

  /** Every 8-bit sample falls into one of the numberOfBins uniform bins. */
  lemma UniformBinInRange(v: int, numberOfBins: int)
    requires numberOfBins >= 1 && 0 <= v <= 255
    ensures 0 <= v / Denominator(numberOfBins) < numberOfBins
  {
    Geometry.DivBelow(v, Denominator(numberOfBins), numberOfBins);
  }

  // ---------------------------------------------------------------------
  // Equalized binning.
  // ---------------------------------------------------------------------

  /** The pixels at every fifth row and every fifth column, row-major. */
  function Subsample(img: Image): (s: seq<Pixel>)
    requires ValidImage(img)
    ensures |s| == ((img.height + 4) / 5) * ((img.width + 4) / 5)
    ensures forall k :: 0 <= k < |s| ==> ValidPixel(s[k], img.channels)
  {
    var rows := (img.height + 4) / 5;
    var cols := (img.width + 4) / 5;
    var g := seq(rows, a requires 0 <= a < rows =>
      seq(cols, b requires 0 <= b < cols => img.samples[5 * a][5 * b]));
    FlattenLength(g, rows, cols);
    FlattenValid(g, img.channels);
    Flatten(g)
  }

  lemma {:induction false} FlattenValid(g: seq<seq<Pixel>>, channels: int)
    requires forall a, b :: 0 <= a < |g| && 0 <= b < |g[a]| ==> ValidPixel(g[a][b], channels)
    ensures forall k :: 0 <= k < |Flatten(g)| ==> ValidPixel(Flatten(g)[k], channels)
    decreases |g|
  {
    if |g| > 0 {
      FlattenValid(g[..|g| - 1], channels);
    }
  }

  /** Channel `c` of every sample, in order. */
  function Channel(samples: seq<Pixel>, c: int): (xs: seq<int>)
    requires 0 <= c && forall k :: 0 <= k < |samples| ==> c < |samples[k]|
    ensures |xs| == |samples|
    ensures forall k :: 0 <= k < |xs| ==> xs[k] == samples[k][c]
  {
    seq(|samples|, k requires 0 <= k < |samples| => samples[k][c])
  }

  /** How many of the values equal `v`. */
  function CountEqual(xs: seq<int>, v: int): (n: int)
    ensures 0 <= n <= |xs|
  {
    if |xs| == 0 then 0
    else CountEqual(xs[..|xs| - 1], v) + (if xs[|xs| - 1] == v then 1 else 0)
  }

  /** How many of the values are at most `v`: the cumulative distribution
      that drives equalized binning. */
  function CountAtMost(xs: seq<int>, v: int): (n: int)
    ensures 0 <= n <= |xs|
  {
    if |xs| == 0 then 0
    else CountAtMost(xs[..|xs| - 1], v) + (if xs[|xs| - 1] <= v then 1 else 0)
  }

  /** The cumulative count at v adds the values equal to v to those at most v - 1. */
  lemma {:induction false} CountAtMostStep(xs: seq<int>, v: int)
    ensures CountAtMost(xs, v) == CountAtMost(xs, v - 1) + CountEqual(xs, v)
    decreases |xs|
  {
    if |xs| > 0 {
      CountAtMostStep(xs[..|xs| - 1], v);
    }
  }

  /** Below the smallest non-negative value nothing is counted. */
  lemma {:induction false} CountAtMostNegative(xs: seq<int>)
    requires forall k :: 0 <= k < |xs| ==> xs[k] >= 0
    ensures CountAtMost(xs, -1) == 0
    decreases |xs|
  {
    if |xs| > 0 {
      CountAtMostNegative(xs[..|xs| - 1]);
    }
  }

  /** At the largest 8-bit value everything is counted. */
  lemma {:induction false} CountAtMostAll(xs: seq<int>)
    requires forall k :: 0 <= k < |xs| ==> xs[k] <= 255
    ensures CountAtMost(xs, 255) == |xs|
    decreases |xs|
  {
    if |xs| > 0 {
      CountAtMostAll(xs[..|xs| - 1]);
    }
  }

  /** The cumulative distribution never decreases. */
  lemma {:induction false} CountAtMostMonotone(xs: seq<int>, v: int, w: int)
    requires v <= w
    ensures CountAtMost(xs, v) <= CountAtMost(xs, w)
    decreases |xs|
  {
    if |xs| > 0 {
      CountAtMostMonotone(xs[..|xs| - 1], v, w);
    }
  }

  /** The integral histogram of one channel: a 256-entry count of each
      sample value, then running sums over the values. */
  method IntegralHistogram(xs: seq<int>) returns (counts: seq<int>)
    requires forall k :: 0 <= k < |xs| ==> 0 <= xs[k] <= 255
    ensures |counts| == 256
    ensures forall v :: 0 <= v < 256 ==> counts[v] == CountAtMost(xs, v)
  {
    counts := seq(256, v => 0);
    var p := 0;
    while p < |xs|
      invariant 0 <= p <= |xs|
      invariant |counts| == 256
      invariant forall v :: 0 <= v < 256 ==> counts[v] == CountEqual(xs[..p], v)
    {
      assert xs[..p + 1][..p] == xs[..p];
      var value := xs[p];
      counts := counts[value := counts[value] + 1];
      p := p + 1;
    }
    assert xs[..p] == xs;
    CountAtMostNegative(xs);
    CountAtMostStep(xs, 0);
    var l := 1;
    while l < 256
      invariant 1 <= l <= 256
      invariant |counts| == 256
      invariant forall v :: 0 <= v < l ==> counts[v] == CountAtMost(xs, v)
      invariant forall v :: l <= v < 256 ==> counts[v] == CountEqual(xs, v)
    {
      CountAtMostStep(xs, l);
      counts := counts[l := counts[l] + counts[l - 1]];
      l := l + 1;
    }
  }

  /** Population of one equalized bin: the ceiling of (count + 1) / numberOfBins. */
  function EquiHeight(count: int, numberOfBins: int): (e: int)
    requires count >= 0 && numberOfBins >= 1
    ensures e >= 1 && e * numberOfBins >= count + 1
    ensures (e - 1) * numberOfBins < count + 1
  {
    var e := (count + numberOfBins) / numberOfBins;
    assert count + numberOfBins == e * numberOfBins + (count + numberOfBins) % numberOfBins;
    e
  }

  /** A cumulative count never exceeds the sample count, so it falls into
      one of the numberOfBins equalized bins. */
  lemma EqualizedBinInRange(cumulative: int, count: int, numberOfBins: int)
    requires numberOfBins >= 1 && 0 <= cumulative <= count
    ensures 0 <= cumulative / EquiHeight(count, numberOfBins) < numberOfBins
  {
    Geometry.DivBelow(cumulative, EquiHeight(count, numberOfBins), numberOfBins);
  }

  // ---------------------------------------------------------------------
  // Combining channel bins into one histogram bin.
  // ---------------------------------------------------------------------

  /** Bin of one channel sample under the given mode; `sub` is the subsample
      whose cumulative distribution equalized binning uses. */
  function ChannelBin(mode: BinningMode, sub: seq<Pixel>, numberOfBins: int, c: int, v: int): (b: int)
    requires numberOfBins >= 1 && 0 <= v <= 255 && 0 <= c
    requires forall k :: 0 <= k < |sub| ==> c < |sub[k]|
    ensures 0 <= b < numberOfBins
  {
    match mode
    case Uniform =>
      UniformBinInRange(v, numberOfBins);
      v / Denominator(numberOfBins)
    case Equalized =>
      var cumulative := CountAtMost(Channel(sub, c), v);
      EqualizedBinInRange(cumulative, |sub|, numberOfBins);
      cumulative / EquiHeight(|sub|, numberOfBins)
  }

  /** Joint bin of a pixel: channel 0 varies fastest. */
  function PixelBin(mode: BinningMode, sub: seq<Pixel>, numberOfBins: int, p: Pixel, channels: int): (b: int)
    requires numberOfBins >= 1 && (channels == 1 || channels == 3) && ValidPixel(p, channels)
    requires forall k :: 0 <= k < |sub| ==> ValidPixel(sub[k], channels)
    ensures 0 <= b < HistogramSize(numberOfBins, channels)
  {
    var n := numberOfBins;
    assert forall k :: 0 <= k < |sub| ==> |sub[k]| == channels by {
      forall k | 0 <= k < |sub| ensures |sub[k]| == channels {
        assert ValidPixel(sub[k], channels);
      }
    }
    assert Pow(n, 1) == n * Pow(n, 0);
    if channels == 1 then
      ChannelBin(mode, sub, n, 0, p[0])
    else
      var b0 := ChannelBin(mode, sub, n, 0, p[0]);
      var b1 := ChannelBin(mode, sub, n, 1, p[1]);
      var b2 := ChannelBin(mode, sub, n, 2, p[2]);
      CombineInRange(b0, b1, b2, n);
      b0 + n * b1 + n * n * b2
  }

  lemma CombineInRange(b0: int, b1: int, b2: int, n: int)
    requires n >= 1 && 0 <= b0 < n && 0 <= b1 < n && 0 <= b2 < n
    ensures 0 <= b0 + n * b1 + n * n * b2 < Pow(n, 3)
  {
    var nn := n * n;
    assert Pow(n, 1) == n;
    assert Pow(n, 2) == nn;
    assert Pow(n, 3) == n * nn;
    Geometry.MulMonotone(n, b1, n - 1);
    Geometry.MulMonotone(nn, b2, n - 1);
    Geometry.MulMonotone(n, 0, b1);
    Geometry.MulMonotone(nn, 0, b2);
    assert n * (n - 1) == nn - n;
    assert nn * (n - 1) == n * nn - nn;
    assert n * n * b2 == nn * b2;
  }

  /** The bin grid the pyramid is built from: one joint bin per pixel. */
  function HistogramBins(img: Image, numberOfBins: int, mode: BinningMode): (bins: seq<seq<int>>)
    requires ValidImage(img) && numberOfBins >= 1
    ensures IsGrid(bins, img.height, img.width)
    ensures forall i, j :: 0 <= i < img.height && 0 <= j < img.width ==>
      0 <= bins[i][j] < HistogramSize(numberOfBins, img.channels)
  {
    var sub := Subsample(img);
    seq(img.height, i requires 0 <= i < img.height =>
      seq(img.width, j requires 0 <= j < img.width =>
        PixelBin(mode, sub, numberOfBins, img.samples[i][j], img.channels)))
  }
}
