/**
 * The RGBA normaliser toRGBA: turns a layer into a fresh buffer of
 * width*height*4 bytes. Branches are tried in source order: colour layer,
 * GB7 bytes, decoded raster (ImageData), original <img>; when none applies
 * the buffer stays all zero. The two canvas branches read back what a 2D
 * canvas of the layer's size holds after the fill or the drawImage; those
 * bytes are the parameter `rendered`.
 */
module Rgba {
  import opened Common
  import opened ImageTypes

  datatype Mode = Color | AlphaOnly

  /** Options of toRGBA; the source defaults are mode 'color' and forceOpaque false. */
  datatype RgbaOpts = RgbaOpts(mode: Mode, forceOpaque: bool)

  const DefaultOpts: RgbaOpts := RgbaOpts(Color, false)

  datatype Rgba = Rgba(raw: seq<byte>, width: nat, height: nat)

  /** Math.floor((gray7 / 127) * 255): 7-bit luma widened to 8 bits. */
  function Gray7To8(gray7: int): (g8: byte)
    requires 0 <= gray7 <= 127
    ensures g8 as real <= gray7 as real * 255.0 / 127.0 < g8 as real + 1.0
    ensures gray7 == 0 ==> g8 == 0
    ensures gray7 == 127 ==> g8 == 255
  {
    (gray7 * 255) / 127
  }

  /** The mask bit of a GB7 byte as an alpha value; 255 when the layer has no mask. */
  function MaskAlpha(b: byte, hasMask: bool): byte
  {
    if hasMask then (if b >= 0x80 then 255 else 0) else 255
  }

  /** Channel c of the RGBA pixel made from GB7 byte b. */
  function Gb7Channel(b: byte, c: int, hasMask: bool, mode: Mode, forceAlpha: bool): byte
  {
    match mode
    case AlphaOnly => if c < 3 then MaskAlpha(b, hasMask) else 255
    case Color => if c < 3 then Gray7To8(b % 0x80) else if forceAlpha then 255 else MaskAlpha(b, hasMask)
  }

  /**
   * The GB7 branch over a buffer of n pixels: pixel p comes from pixels[p]
   * when there is one; writes past the end are dropped, missing pixels stay 0.
   */
  function Gb7Raw(pixels: seq<byte>, n: nat, hasMask: bool, mode: Mode, forceAlpha: bool): (raw: seq<byte>)
    ensures |raw| == n * 4 && |raw| % 4 == 0 && |raw| / 4 == n
  {
    ChannelIndex(n, 0);
    seq(n * 4, k requires 0 <= k < n * 4 =>
      if k / 4 < |pixels| then Gb7Channel(pixels[k / 4], k % 4, hasMask, mode, forceAlpha) else 0)
  }

  /** alphaOnly of a raster: R = G = B = the source alpha, A = 255. */
  function AlphaAsGray(src: seq<byte>): (raw: seq<byte>)
    requires |src| % 4 == 0
    ensures |raw| == |src|
  {
    seq(|src|, k requires 0 <= k < |src| => if k % 4 < 3 then src[k - k % 4 + 3] else 255)
  }

  /** The raster with every alpha byte set to 255, colour bytes as they are. */
  function WithOpaqueAlpha(src: seq<byte>): (raw: seq<byte>)
    ensures |raw| == |src|
  {
    seq(|src|, k requires 0 <= k < |src| => if k % 4 == 3 then 255 else src[k])
  }

  /** A raster branch: alphaOnly, else a copy whose alpha is forced when `forceAlpha`. */
  function RasterRaw(src: seq<byte>, mode: Mode, forceAlpha: bool): (raw: seq<byte>)
    requires |src| % 4 == 0
    ensures |raw| == |src|
  {
    match mode
    case AlphaOnly => AlphaAsGray(src)
    case Color => if forceAlpha then WithOpaqueAlpha(src) else src
  }

  predicate IsColorBranch(img: Layer) { img.isColorLayer && |img.color| > 0 }

  predicate IsGb7Branch(img: Layer) { !IsColorBranch(img) && img.format == Gb7 && img.pixels.Some? }

  predicate IsRasterBranch(img: Layer) { !IsColorBranch(img) && !IsGb7Branch(img) && img.imageData.Some? }

  predicate IsOriginalBranch(img: Layer)
  {
    !IsColorBranch(img) && !IsGb7Branch(img) && !IsRasterBranch(img) && img.hasOriginal
  }

  /** What toRGBA returns. */
  function Normalized(img: Layer, opts: RgbaOpts, rendered: seq<byte>): (r: Rgba)
    requires WellFormed(img) && |rendered| == img.width * img.height * 4
    ensures |r.raw| == img.width * img.height * 4
    ensures r.width == img.width && r.height == img.height
  {
    var n := img.width * img.height;
    var raw :=
      if IsColorBranch(img) then rendered
      else if IsGb7Branch(img) then
        Gb7Raw(img.pixels.value, n, img.hasAlpha, opts.mode,
               img.alphaHidden || img.alphaRemoved || opts.forceOpaque)
      else if IsRasterBranch(img) then
        RasterRaw(img.imageData.value, opts.mode, img.alphaHidden || img.alphaRemoved || opts.forceOpaque)
      else if IsOriginalBranch(img) then
        RasterRaw(rendered, opts.mode, opts.forceOpaque)
      else
        seq(n * 4, _ => 0);
    Rgba(raw, img.width, img.height)
  }

  /** raw.set(src): copies src over the start of raw. */
  method SetFrom(raw: array<byte>, src: seq<byte>)
    requires |src| == raw.Length
    modifies raw
    ensures raw[..] == src
  {
    forall k | 0 <= k < raw.Length {
      raw[k] := src[k];
    }
  }

  /** The alphaOnly loop of the raster branches. */
  method FillAlphaAsGray(raw: array<byte>, src: seq<byte>)
    requires |src| == raw.Length && |src| % 4 == 0
    modifies raw
    ensures raw[..] == AlphaAsGray(src)
  {
    var i := 0;
    while i < |src|
      invariant 0 <= i <= |src| && i % 4 == 0
      invariant forall k :: 0 <= k < i ==> raw[k] == AlphaAsGray(src)[k]
    {
      var a := src[i + 3];
      raw[i], raw[i + 1], raw[i + 2] := a, a, a;
      raw[i + 3] := 255;
      i := i + 4;
    }
    assert raw[..] == AlphaAsGray(src);
  }

  /** The loop that sets every alpha byte of a buffer to 255 in place. */
  method ForceOpaqueInPlace(src: array<byte>)
    requires src.Length % 4 == 0
    modifies src
    ensures src[..] == WithOpaqueAlpha(old(src[..]))
  {
    ghost var was := src[..];
    var i := 0;
    while i < src.Length
      invariant 0 <= i <= src.Length && i % 4 == 0
      invariant forall k :: 0 <= k < src.Length ==> src[k] == (if k < i then WithOpaqueAlpha(was)[k] else was[k])
    {
      src[i + 3] := 255;
      i := i + 4;
    }
    assert src[..] == WithOpaqueAlpha(was);
  }

  /** A raster branch: a working copy of the source, then alphaOnly or (forced) colour. */
  method RasterInto(raw: array<byte>, data: seq<byte>, mode: Mode, forceAlpha: bool)
    requires |data| == raw.Length && |data| % 4 == 0
    modifies raw
    ensures raw[..] == RasterRaw(data, mode, forceAlpha)
  {
    var src := new byte[|data|](k requires 0 <= k < |data| => data[k]);
    assert src[..] == data;
    if mode == AlphaOnly {
      FillAlphaAsGray(raw, src[..]);
    } else {
      if forceAlpha {
        ForceOpaqueInPlace(src);
      }
      SetFrom(raw, src[..]);
    }
  }

  /** The GB7 loop: one byte in, four channel bytes out, per pixel. */
  method FillFromGb7(raw: array<byte>, pixels: seq<byte>, hasMask: bool, mode: Mode, forceAlpha: bool)
    requires raw.Length % 4 == 0
    requires forall k :: 0 <= k < raw.Length ==> raw[k] == 0
    modifies raw
    ensures raw[..] == Gb7Raw(pixels, raw.Length / 4, hasMask, mode, forceAlpha)
  {
    ghost var spec := Gb7Raw(pixels, raw.Length / 4, hasMask, mode, forceAlpha);
    var i := 0;
    while i < |pixels|
      invariant 0 <= i <= |pixels|
      invariant forall k :: 0 <= k < raw.Length ==> raw[k] == (if k < i * 4 then spec[k] else 0)
    {
      var b := pixels[i];
      var gray7 := b % 0x80;
      var gray8 := Gray7To8(gray7);
      var idx := i * 4;
      // a write past the end of a typed array is dropped
      if idx < raw.Length {
        if mode == AlphaOnly {
          var a := if hasMask then (if b >= 0x80 then 255 else 0) else 255;
          raw[idx], raw[idx + 1], raw[idx + 2] := a, a, a;
          raw[idx + 3] := 255;
        } else {
          raw[idx], raw[idx + 1], raw[idx + 2] := gray8, gray8, gray8;
          var a := 255;
          if hasMask {
            a := if b >= 0x80 then 255 else 0;
          }
          if forceAlpha {
            a := 255;
          }
          raw[idx + 3] := a;
        }
      }
      i := i + 1;
    }
    assert raw[..] == spec;
  }

  /** toRGBA. */
  method ToRgba(img: Layer, opts: RgbaOpts, rendered: seq<byte>) returns (out: Rgba)
    requires WellFormed(img) && |rendered| == img.width * img.height * 4
    ensures out == Normalized(img, opts, rendered)
  {
    var mode := opts.mode;
    var width, height := img.width, img.height;
    var raw := new byte[width * height * 4](_ => 0);
    assert raw.Length / 4 == width * height;
    if img.isColorLayer && |img.color| > 0 {
      SetFrom(raw, rendered);
    } else if img.format == Gb7 && img.pixels.Some? {
      FillFromGb7(raw, img.pixels.value, img.hasAlpha, mode, img.alphaHidden || img.alphaRemoved || opts.forceOpaque);
    } else if img.imageData.Some? {
      RasterInto(raw, img.imageData.value, mode, img.alphaHidden || img.alphaRemoved || opts.forceOpaque);
    } else if img.hasOriginal {
      RasterInto(raw, rendered, mode, opts.forceOpaque);
    } else {
      assert raw[..] == seq(width * height * 4, _ => 0);
    }
    out := Rgba(raw[..], width, height);
  }

  // ---------------------------------------------------------------------
  // Properties

  /** When no branch applies the buffer is all zeros. */
  lemma NoBranchAllZero(img: Layer, opts: RgbaOpts, rendered: seq<byte>)
    requires WellFormed(img) && |rendered| == img.width * img.height * 4
    requires !IsColorBranch(img) && !IsGb7Branch(img) && !IsRasterBranch(img) && !IsOriginalBranch(img)
    ensures forall k :: 0 <= k < |Normalized(img, opts, rendered).raw| ==> Normalized(img, opts, rendered).raw[k] == 0
  {
  }

  /** Channel c of pixel p of the GB7 branch comes from byte p alone. */
  lemma Gb7RawAt(pixels: seq<byte>, n: nat, hasMask: bool, mode: Mode, forceAlpha: bool, p: nat, c: nat)
    requires p < n && p < |pixels| && c < 4
    ensures Gb7Raw(pixels, n, hasMask, mode, forceAlpha)[p * 4 + c] == Gb7Channel(pixels[p], c, hasMask, mode, forceAlpha)
  {
    ChannelIndex(p, c);
  }

  /** GB7 colour mode: R = G = B = floor(luma7 * 255 / 127), so luma 0 is black and 127 is white. */
  lemma Gb7ColorChannels(img: Layer, forceOpaque: bool, rendered: seq<byte>, p: nat)
    requires WellFormed(img) && |rendered| == img.width * img.height * 4
    requires IsGb7Branch(img)
    requires p < img.width * img.height && p < |img.pixels.value|
    ensures var raw := Normalized(img, RgbaOpts(Color, forceOpaque), rendered).raw;
      var b := img.pixels.value[p];
      raw[p * 4] == raw[p * 4 + 1] == raw[p * 4 + 2] == Gray7To8(b % 0x80)
      && raw[p * 4 + 3] == (if !img.hasAlpha || img.alphaHidden || img.alphaRemoved || forceOpaque then 255
                            else if b >= 0x80 then 255 else 0)
  {
    var n := img.width * img.height;
    var fa := img.alphaHidden || img.alphaRemoved || forceOpaque;
    BranchOrder(img, RgbaOpts(Color, forceOpaque), rendered);
    assert Normalized(img, RgbaOpts(Color, forceOpaque), rendered).raw == Gb7Raw(img.pixels.value, n, img.hasAlpha, Color, fa);
    Gb7RawPixel(img.pixels.value, n, img.hasAlpha, Color, fa, p);
  }

  /** GB7 alphaOnly: R = G = B = the mask as 0/255 (255 without a mask), A = 255, whatever the force flags say. */
  lemma Gb7AlphaOnlyChannels(img: Layer, forceOpaque: bool, rendered: seq<byte>, p: nat)
    requires WellFormed(img) && |rendered| == img.width * img.height * 4
    requires IsGb7Branch(img)
    requires p < img.width * img.height && p < |img.pixels.value|
    ensures var raw := Normalized(img, RgbaOpts(AlphaOnly, forceOpaque), rendered).raw;
      var b := img.pixels.value[p];
      raw[p * 4] == raw[p * 4 + 1] == raw[p * 4 + 2] == (if img.hasAlpha && b < 0x80 then 0 else 255)
      && raw[p * 4 + 3] == 255
  {
    var n := img.width * img.height;
    var fa := img.alphaHidden || img.alphaRemoved || forceOpaque;
    BranchOrder(img, RgbaOpts(AlphaOnly, forceOpaque), rendered);
    assert Normalized(img, RgbaOpts(AlphaOnly, forceOpaque), rendered).raw == Gb7Raw(img.pixels.value, n, img.hasAlpha, AlphaOnly, fa);
    Gb7RawPixel(img.pixels.value, n, img.hasAlpha, AlphaOnly, fa, p);
  }

  /** The four bytes of pixel p of the GB7 branch. */
  lemma Gb7RawPixel(pixels: seq<byte>, n: nat, hasMask: bool, mode: Mode, forceAlpha: bool, p: nat)
    requires p < n && p < |pixels|
    ensures var raw := Gb7Raw(pixels, n, hasMask, mode, forceAlpha);
      raw[p * 4] == Gb7Channel(pixels[p], 0, hasMask, mode, forceAlpha)
      && raw[p * 4 + 1] == Gb7Channel(pixels[p], 1, hasMask, mode, forceAlpha)
      && raw[p * 4 + 2] == Gb7Channel(pixels[p], 2, hasMask, mode, forceAlpha)
      && raw[p * 4 + 3] == Gb7Channel(pixels[p], 3, hasMask, mode, forceAlpha)
  {
    Gb7RawAt(pixels, n, hasMask, mode, forceAlpha, p, 0);
    Gb7RawAt(pixels, n, hasMask, mode, forceAlpha, p, 1);
    Gb7RawAt(pixels, n, hasMask, mode, forceAlpha, p, 2);
    Gb7RawAt(pixels, n, hasMask, mode, forceAlpha, p, 3);
  }

  /** alphaOnly output never depends on forceOpaque, alphaHidden or alphaRemoved, in any branch. */
  lemma AlphaOnlyIgnoresForceFlags(img: Layer, hidden: bool, removed: bool, f1: bool, f2: bool, rendered: seq<byte>)
    requires WellFormed(img) && |rendered| == img.width * img.height * 4
    ensures Normalized(img, RgbaOpts(AlphaOnly, f1), rendered)
         == Normalized(img.(alphaHidden := hidden, alphaRemoved := removed), RgbaOpts(AlphaOnly, f2), rendered)
  {
    var img' := img.(alphaHidden := hidden, alphaRemoved := removed);
    var n := img.width * img.height;
    if IsGb7Branch(img) {
      var fa := img.alphaHidden || img.alphaRemoved || f1;
      var fa' := hidden || removed || f2;
      assert Gb7Raw(img.pixels.value, n, img.hasAlpha, AlphaOnly, fa)
          == Gb7Raw(img.pixels.value, n, img.hasAlpha, AlphaOnly, fa');
    }
  }

  /** Raster colour mode copies every colour byte; alpha becomes 255 exactly when hidden, removed or forced. */
  lemma RasterColorCopies(img: Layer, forceOpaque: bool, rendered: seq<byte>, k: nat)
    requires WellFormed(img) && |rendered| == img.width * img.height * 4
    requires IsRasterBranch(img) && k < |img.imageData.value|
    ensures var raw := Normalized(img, RgbaOpts(Color, forceOpaque), rendered).raw;
      raw[k] == (if k % 4 == 3 && (img.alphaHidden || img.alphaRemoved || forceOpaque) then 255
                 else img.imageData.value[k])
  {
  }

  /** Raster alphaOnly: R = G = B = the source pixel's alpha, A = 255. */
  lemma RasterAlphaOnlyGray(img: Layer, forceOpaque: bool, rendered: seq<byte>, p: nat)
    requires WellFormed(img) && |rendered| == img.width * img.height * 4
    requires IsRasterBranch(img) && p < img.width * img.height
    ensures var raw := Normalized(img, RgbaOpts(AlphaOnly, forceOpaque), rendered).raw;
      var a := img.imageData.value[p * 4 + 3];
      raw[p * 4] == a && raw[p * 4 + 1] == a && raw[p * 4 + 2] == a && raw[p * 4 + 3] == 255
  {
    BranchOrder(img, RgbaOpts(AlphaOnly, forceOpaque), rendered);
    assert Normalized(img, RgbaOpts(AlphaOnly, forceOpaque), rendered).raw == AlphaAsGray(img.imageData.value);
    AlphaAsGrayPixel(img.imageData.value, p);
  }

  /** Pixel p of AlphaAsGray: three copies of the source alpha, then 255. */
  lemma AlphaAsGrayPixel(src: seq<byte>, p: nat)
    requires |src| % 4 == 0 && p * 4 + 4 <= |src|
    ensures var raw := AlphaAsGray(src);
      raw[p * 4] == src[p * 4 + 3] && raw[p * 4 + 1] == src[p * 4 + 3] && raw[p * 4 + 2] == src[p * 4 + 3]
      && raw[p * 4 + 3] == 255
  {
    ChannelIndex(p, 0);
    ChannelIndex(p, 1);
    ChannelIndex(p, 2);
    ChannelIndex(p, 3);
  }

  /** Branch order: a colour layer wins over GB7 bytes, GB7 bytes over ImageData, ImageData over the original. */
  lemma BranchOrder(img: Layer, opts: RgbaOpts, rendered: seq<byte>)
    requires WellFormed(img) && |rendered| == img.width * img.height * 4
    ensures IsColorBranch(img) ==> Normalized(img, opts, rendered).raw == rendered
    ensures !IsColorBranch(img) && img.format == Gb7 && img.pixels.Some? ==>
      Normalized(img, opts, rendered).raw
        == Gb7Raw(img.pixels.value, img.width * img.height, img.hasAlpha, opts.mode,
                  img.alphaHidden || img.alphaRemoved || opts.forceOpaque)
    ensures !IsColorBranch(img) && !(img.format == Gb7 && img.pixels.Some?) && img.imageData.Some? ==>
      Normalized(img, opts, rendered).raw
        == RasterRaw(img.imageData.value, opts.mode, img.alphaHidden || img.alphaRemoved || opts.forceOpaque)
  {
  }
}
