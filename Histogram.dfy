/**
 * Histograms: 256 bins per channel for RGBA ImageData (R, G, B, or only A),
 * and for GB7 pixels 128 luma bins plus the counts of masked-out and
 * masked-in pixels.
 */
module Histogram {
  import opened Common
  import opened ImageTypes

  /** Occurrences of v in s. */
  function Count(s: seq<int>, v: int): (n: nat)
    ensures n <= |s|
  {
    if |s| == 0 then 0 else Count(s[..|s| - 1], v) + (if s[|s| - 1] == v then 1 else 0)
  }

  /** bins[v] = occurrences of v, for v below the number of bins. */
  function Hist(s: seq<int>, bins: nat): (h: seq<nat>)
    ensures |h| == bins
  {
    seq(bins, v requires 0 <= v < bins => Count(s, v))
  }

  function Sum(xs: seq<nat>): nat
  {
    if |xs| == 0 then 0 else Sum(xs[..|xs| - 1]) + xs[|xs| - 1]
  }

  /** Channel c of the first n pixels. */
  function Channel(data: seq<byte>, c: nat, n: nat): (s: seq<int>)
    requires c < 4 && 4 * n <= |data|
    ensures |s| == n
  {
    seq(n, p requires 0 <= p < n => data[4 * p + c] as int)
  }

  function PixelCount(img: ImageData): nat
  {
    |img.data| / 4
  }

  datatype Hists = HistRgb(r: seq<nat>, g: seq<nat>, b: seq<nat>) | HistA(a: seq<nat>)

  /** The result of calcHistogram. */
  function CalcHistogramSpec(img: ImageData, alphaOnly: bool): Hists
    requires ValidImageData(img)
  {
    var n := PixelCount(img);
    if alphaOnly then HistA(Hist(Channel(img.data, 3, n), 256))
    else HistRgb(Hist(Channel(img.data, 0, n), 256), Hist(Channel(img.data, 1, n), 256), Hist(Channel(img.data, 2, n), 256))
  }

  lemma ChannelStep(data: seq<byte>, c: nat, n: nat)
    requires c < 4 && 4 * (n + 1) <= |data|
    ensures Channel(data, c, n + 1)[..n] == Channel(data, c, n)
    ensures Channel(data, c, n + 1)[n] == data[4 * n + c]
  {
  }

  lemma ValidDataLength(img: ImageData)
    requires ValidImageData(img)
    ensures |img.data| == 4 * PixelCount(img)
  {
    ChannelIndex(img.width * img.height, 0);
  }

  /** The alphaOnly loop: a[data[i]]++ for i = 3, 7, 11, ... */
  method AlphaHistogram(data: seq<byte>) returns (a: seq<nat>)
    requires |data| % 4 == 0
    ensures a == Hist(Channel(data, 3, |data| / 4), 256)
  {
    var bins := new nat[256](_ => 0);
    var i, p := 3, 0;
    while i < |data|
      invariant i == 4 * p + 3 && 4 * p <= |data|
      invariant forall v :: 0 <= v < 256 ==> bins[v] == Count(Channel(data, 3, p), v)
    {
      ChannelStep(data, 3, p);
      bins[data[i]] := bins[data[i]] + 1;
      i, p := i + 4, p + 1;
    }
    assert p == |data| / 4;
    a := bins[..];
  }

  /** The 256 bins hold the histogram of channel c over the first p pixels. */
  predicate Counted(bins: array<nat>, data: seq<byte>, c: nat, p: nat)
    requires c < 4 && 4 * p <= |data|
    reads bins
  {
    bins.Length == 256 && forall v :: 0 <= v < 256 ==> bins[v] == Count(Channel(data, c, p), v)
  }

  /** bins[data[4p + c]]++: the bins of channel c over p pixels become those over p + 1. */
  method CountPixel(bins: array<nat>, data: seq<byte>, c: nat, p: nat)
    requires c < 4 && 4 * (p + 1) <= |data|
    requires Counted(bins, data, c, p)
    modifies bins
    ensures Counted(bins, data, c, p + 1)
  {
    ChannelStep(data, c, p);
    var v := data[4 * p + c];
    bins[v] := bins[v] + 1;
  }

  /** One step of the RGB loop: the pixel at byte 4p is counted in each of the three histograms. */
  method CountRgbPixel(rb: array<nat>, gb: array<nat>, bb: array<nat>, data: seq<byte>, p: nat)
    requires rb != gb && gb != bb && rb != bb && 4 * (p + 1) <= |data|
    requires Counted(rb, data, 0, p) && Counted(gb, data, 1, p) && Counted(bb, data, 2, p)
    modifies rb, gb, bb
    ensures Counted(rb, data, 0, p + 1) && Counted(gb, data, 1, p + 1) && Counted(bb, data, 2, p + 1)
  {
    CountPixel(rb, data, 0, p);
    CountPixel(gb, data, 1, p);
    CountPixel(bb, data, 2, p);
  }

  /** The RGB loop: r[data[i]]++, g[data[i+1]]++, b[data[i+2]]++ for i = 0, 4, 8, ... */
  method RgbHistogram(data: seq<byte>) returns (r: seq<nat>, g: seq<nat>, b: seq<nat>)
    requires |data| % 4 == 0
    ensures r == Hist(Channel(data, 0, |data| / 4), 256)
    ensures g == Hist(Channel(data, 1, |data| / 4), 256)
    ensures b == Hist(Channel(data, 2, |data| / 4), 256)
  {
    var rb, gb, bb := new nat[256](_ => 0), new nat[256](_ => 0), new nat[256](_ => 0);
    var i, p := 0, 0;
    while i < |data|
      invariant i == 4 * p && 4 * p <= |data|
      invariant Counted(rb, data, 0, p) && Counted(gb, data, 1, p) && Counted(bb, data, 2, p)
    {
      WholePixelLeft(i, |data|);
      CountRgbPixel(rb, gb, bb, data, p);
      i, p := i + 4, p + 1;
    }
    assert p == |data| / 4;
    r := CountedHist(rb, data, 0, p);
    g := CountedHist(gb, data, 1, p);
    b := CountedHist(bb, data, 2, p);
  }

  /** The bins once every pixel is counted: the histogram of the channel. */
  method CountedHist(bins: array<nat>, data: seq<byte>, c: nat, n: nat) returns (h: seq<nat>)
    requires c < 4 && 4 * n <= |data| && Counted(bins, data, c, n)
    ensures h == Hist(Channel(data, c, n), 256)
  {
    h := bins[..];
  }

  /** calcHistogram(imageData, { alphaOnly }). */
  method CalcHistogram(img: ImageData, alphaOnly: bool) returns (h: Hists)
    requires ValidImageData(img)
    ensures h == CalcHistogramSpec(img, alphaOnly)
  {
    ValidDataLength(img);
    if alphaOnly {
      var a := AlphaHistogram(img.data);
      h := HistA(a);
    } else {
      var r, g, b := RgbHistogram(img.data);
      h := HistRgb(r, g, b);
    }
  }

  // ---------------------------------------------------------------------
  // GB7

  datatype Gb7Hist = Gb7Hist(y: seq<nat>, alpha: seq<nat>, alphaDist: seq<nat>)

  function Lumas(pixels: seq<byte>): (s: seq<int>)
    ensures |s| == |pixels|
  {
    seq(|pixels|, i requires 0 <= i < |pixels| => pixels[i] % 0x80)
  }

  /** The mask bit of every pixel, 0 or 1. */
  function Masks(pixels: seq<byte>): (s: seq<int>)
    ensures |s| == |pixels|
  {
    seq(|pixels|, i requires 0 <= i < |pixels| => pixels[i] / 0x80)
  }

  /** The result of calcHistogramGB7. */
  function Gb7HistSpec(pixels: seq<byte>): Gb7Hist
  {
    var a0, a1 := Count(Masks(pixels), 0), Count(Masks(pixels), 1);
    Gb7Hist(Hist(Lumas(pixels), 128), [a0, a1], seq(128, v requires 0 <= v < 128 => if v == 0 then a0 else if v == 127 then a1 else 0))
  }

  /** calcHistogramGB7. */
  method CalcHistogramGb7(pixels: seq<byte>) returns (h: Gb7Hist)
    ensures h == Gb7HistSpec(pixels)
  {
    var y, a0, a1 := CountGb7(pixels);
    var alphaDist := new nat[128](_ => 0);
    alphaDist[0] := a0;
    alphaDist[127] := a1;
    h := Gb7Hist(y, [a0, a1], alphaDist[..]);
  }

  /** The pixel loop of calcHistogramGB7: y[b & 0x7f]++, then a1++ or a0++ by the mask bit. */
  method CountGb7(pixels: seq<byte>) returns (ys: seq<nat>, a0: nat, a1: nat)
    ensures ys == Hist(Lumas(pixels), 128)
    ensures a0 == Count(Masks(pixels), 0) && a1 == Count(Masks(pixels), 1)
  {
    var y := new nat[128](_ => 0);
    a0, a1 := 0, 0;
    for i := 0 to |pixels|
      invariant forall v :: 0 <= v < 128 ==> y[v] == Count(Lumas(pixels[..i]), v)
      invariant a0 == Count(Masks(pixels[..i]), 0) && a1 == Count(Masks(pixels[..i]), 1)
    {
      assert Lumas(pixels[..i + 1])[..i] == Lumas(pixels[..i]);
      assert Masks(pixels[..i + 1])[..i] == Masks(pixels[..i]);
      var b := pixels[i];
      var gray7 := b % 0x80;
      y[gray7] := y[gray7] + 1;
      if b >= 0x80 {
        a1 := a1 + 1;
      } else {
        a0 := a0 + 1;
      }
    }
    assert pixels[..|pixels|] == pixels;
    ys := y[..];
  }

  // ---------------------------------------------------------------------
  // Properties

  /** Bins below n hold count(v) for v < n; appending x adds one to bin x only. */
  function SumCounts(s: seq<int>, n: nat): nat
  {
    if n == 0 then 0 else SumCounts(s, n - 1) + Count(s, n - 1)
  }

  /** Elements of s below n. */
  function CountBelow(s: seq<int>, n: nat): nat
  {
    if |s| == 0 then 0 else CountBelow(s[..|s| - 1], n) + (if 0 <= s[|s| - 1] < n then 1 else 0)
  }

  lemma {:induction false} SumOfHist(s: seq<int>, n: nat)
    ensures Sum(Hist(s, n)) == SumCounts(s, n)
  {
    if n > 0 {
      assert Hist(s, n)[..n - 1] == Hist(s, n - 1);
      SumOfHist(s, n - 1);
    }
  }

  lemma {:induction false} SumCountsIsCountBelow(s: seq<int>, n: nat)
    ensures SumCounts(s, n) == CountBelow(s, n)
    decreases |s|, n
  {
    if |s| == 0 {
      SumCountsEmpty(s, n);
    } else {
      var init := s[..|s| - 1];
      SumCountsIsCountBelow(init, n);
      SumCountsAppend(init, s[|s| - 1], n);
      assert init + [s[|s| - 1]] == s;
    }
  }

  lemma {:induction false} SumCountsEmpty(s: seq<int>, n: nat)
    requires |s| == 0
    ensures SumCounts(s, n) == 0
  {
    if n > 0 {
      SumCountsEmpty(s, n - 1);
    }
  }

  lemma {:induction false} SumCountsAppend(s: seq<int>, x: int, n: nat)
    ensures SumCounts(s + [x], n) == SumCounts(s, n) + (if 0 <= x < n then 1 else 0)
  {
    assert (s + [x])[..|s|] == s;
    if n > 0 {
      SumCountsAppend(s, x, n - 1);
    }
  }

  lemma {:induction false} CountBelowAll(s: seq<int>, n: nat)
    requires forall i :: 0 <= i < |s| ==> 0 <= s[i] < n
    ensures CountBelow(s, n) == |s|
  {
    if |s| > 0 {
      CountBelowAll(s[..|s| - 1], n);
    }
  }

  /** When every value lies among the bins, the bins add up to the number of values. */
  lemma HistSum(s: seq<int>, n: nat)
    requires forall i :: 0 <= i < |s| ==> 0 <= s[i] < n
    ensures Sum(Hist(s, n)) == |s|
  {
    SumOfHist(s, n);
    SumCountsIsCountBelow(s, n);
    CountBelowAll(s, n);
  }

  /** Each histogram of calcHistogram adds up to the pixel count. */
  lemma CalcHistogramSums(img: ImageData, alphaOnly: bool)
    requires ValidImageData(img)
    ensures var h := CalcHistogramSpec(img, alphaOnly);
      (h.HistA? <==> alphaOnly)
      && (h.HistA? ==> |h.a| == 256 && Sum(h.a) == PixelCount(img))
      && (h.HistRgb? ==> |h.r| == |h.g| == |h.b| == 256
                         && Sum(h.r) == PixelCount(img) && Sum(h.g) == PixelCount(img) && Sum(h.b) == PixelCount(img))
  {
    ValidDataLength(img);
    var n := PixelCount(img);
    HistSum(Channel(img.data, 0, n), 256);
    HistSum(Channel(img.data, 1, n), 256);
    HistSum(Channel(img.data, 2, n), 256);
    HistSum(Channel(img.data, 3, n), 256);
  }

  /** Two values that are not equal are counted apart: count(0) + count(1) is |s| when every value is 0 or 1. */
  lemma {:induction false} BinaryCounts(s: seq<int>)
    requires forall i :: 0 <= i < |s| ==> s[i] == 0 || s[i] == 1
    ensures Count(s, 0) + Count(s, 1) == |s|
  {
    if |s| > 0 {
      BinaryCounts(s[..|s| - 1]);
    }
  }

  /**
   * calcHistogramGB7: the luma bins add up to the pixel count, every pixel is
   * counted in exactly one of alpha[0] and alpha[1], and alphaDist holds those
   * two counts at 0 and 127 and nothing else.
   */
  lemma Gb7HistogramTotals(pixels: seq<byte>)
    ensures var h := Gb7HistSpec(pixels);
      |h.y| == 128 && Sum(h.y) == |pixels|
      && |h.alpha| == 2 && h.alpha[0] + h.alpha[1] == |pixels|
      && |h.alphaDist| == 128 && h.alphaDist[0] == h.alpha[0] && h.alphaDist[127] == h.alpha[1]
      && (forall v :: 0 < v < 127 ==> h.alphaDist[v] == 0)
  {
    HistSum(Lumas(pixels), 128);
    BinaryCounts(Masks(pixels));
  }

  /** alpha[1] counts exactly the pixels whose mask bit is set. */
  lemma {:induction false} MaskCountIsOpaquePixels(pixels: seq<byte>)
    ensures Count(Masks(pixels), 1) == |set i | 0 <= i < |pixels| && pixels[i] >= 0x80|
  {
    if |pixels| > 0 {
      var n := |pixels| - 1;
      var init := pixels[..n];
      MaskCountIsOpaquePixels(init);
      assert Masks(pixels)[..n] == Masks(init);
      var S := set i | 0 <= i < |pixels| && pixels[i] >= 0x80;
      var S' := set i | 0 <= i < n && init[i] >= 0x80;
      if pixels[n] >= 0x80 {
        assert S == S' + {n};
      } else {
        assert S == S';
      }
    }
  }
}
