/**
 * 3x3 convolution of one channel of an RGBA buffer with edge extension
 * (samples outside the image take the nearest edge pixel); the RGB filter
 * runs it on R, then G, then B, and the alpha filter on A.
 */
module Convolution {
  import opened Common
  import opened ImageTypes
  import opened Raster

  /** Kernel3x3: nine coefficients row by row, an optional divisor and an optional bias. */
  datatype Kernel = Kernel(m: seq<real>, divisor: Option<real>, bias: Option<real>)

  predicate ValidKernel(k: Kernel) { |k.m| == 9 }

  function Sum9(m: seq<real>): real
    requires |m| == 9
  {
    m[0] + m[1] + m[2] + m[3] + m[4] + m[5] + m[6] + m[7] + m[8]
  }

  /** The divisor: the given one, otherwise the coefficient sum, or 1 when that is 0. */
  function Divisor(k: Kernel): (d: real)
    requires ValidKernel(k)
    ensures k.divisor.None? ==> d != 0.0
  {
    if k.divisor.Some? then k.divisor.value else if Sum9(k.m) == 0.0 then 1.0 else Sum9(k.m)
  }

  function Bias(k: Kernel): real
  {
    if k.bias.Some? then k.bias.value else 0.0
  }

  /** Edge extension of one coordinate. */
  function ClampCoord(v: int, n: int): (r: int)
    requires n >= 1
    ensures 0 <= r < n
    ensures 0 <= v < n ==> r == v
  {
    if v < 0 then 0 else if v >= n then n - 1 else v
  }

  /** The index sampleExtend reads for (x, y): the pixel nearest to it, channel c. */
  function SampleIndex(w: int, h: int, x: int, y: int, c: nat): (i: nat)
    requires w >= 1 && h >= 1 && c < 4
    ensures i < w * h * 4 && i % 4 == c
  {
    var xx, yy := ClampCoord(x, w), ClampCoord(y, h);
    ByteIndex(xx, yy, w, h, c);
    (yy * w + xx) * 4 + c
  }

  /** sampleExtend: channel c of the pixel nearest to (x, y). */
  function Sample(src: seq<byte>, w: int, h: int, x: int, y: int, c: nat): (v: byte)
    requires Buffer(src, w, h) && c < 4
  {
    src[SampleIndex(w, h, x, y, c)]
  }

  /** One step of the window sum: acc += get(...) * coefficient. */
  function AddTerm(acc: real, v: byte, coefficient: real): real
  {
    acc + v as real * coefficient
  }

  /** The weighted sum over the 3x3 window centred on (x, y), accumulated in the source's order. */
  function Acc(src: seq<byte>, w: int, h: int, c: nat, m: seq<real>, x: int, y: int): real
    requires Buffer(src, w, h) && c < 4 && |m| == 9
  {
    AddTerm(AddTerm(AddTerm(AddTerm(AddTerm(AddTerm(AddTerm(AddTerm(AddTerm(0.0, Sample(src, w, h, x - 1, y - 1, c), m[0]), Sample(src, w, h, x + 0, y - 1, c), m[1]), Sample(src, w, h, x + 1, y - 1, c), m[2]), Sample(src, w, h, x - 1, y + 0, c), m[3]), Sample(src, w, h, x + 0, y + 0, c), m[4]), Sample(src, w, h, x + 1, y + 0, c), m[5]), Sample(src, w, h, x - 1, y + 1, c), m[6]), Sample(src, w, h, x + 0, y + 1, c), m[7]), Sample(src, w, h, x + 1, y + 1, c), m[8])
  }

  /** clamp8: 0 below 0, 255 above 255, otherwise truncated toward zero. */
  function Clamp8(v: real): (r: byte)
    ensures v < 0.0 ==> r == 0
    ensures v > 255.0 ==> r == 255
    ensures 0.0 <= v <= 255.0 ==> r as real <= v < r as real + 1.0
  {
    if v < 0.0 then 0 else if v > 255.0 then 255 else v.Floor
  }

  /**
   * clamp8(acc / divisor + bias). With an explicit divisor of 0 the quotient
   * is +Infinity (stored 255) for a positive sum, -Infinity or NaN (stored 0)
   * otherwise.
   */
  function OutValue(acc: real, divisor: real, bias: real): byte
  {
    if divisor == 0.0 then (if acc > 0.0 then 255 else 0) else Clamp8(acc / divisor + bias)
  }

  /** The new value of channel c at (x, y). */
  function ConvAt(src: seq<byte>, w: int, h: int, c: nat, k: Kernel, x: int, y: int): byte
    requires Buffer(src, w, h) && c < 4 && ValidKernel(k)
  {
    OutValue(Acc(src, w, h, c, k.m, x, y), Divisor(k), Bias(k))
  }

  /** The buffer convolveChannel3x3 returns: channel c filtered, the others copied. */
  function ConvolvedChannel(src: seq<byte>, w: int, h: int, c: nat, k: Kernel): (out: seq<byte>)
    requires Buffer(src, w, h) && c < 4 && ValidKernel(k)
    ensures |out| == |src|
  {
    seq(|src|, i requires 0 <= i < |src| =>
      if i % 4 == c then ConvAt(src, w, h, c, k, (i / 4) % w, (i / 4) / w) else src[i])
  }

  /** The body of the inner loop of convolveChannel3x3: the window sum, scaled, biased and clamped. */
  method ConvolvePixel(src: seq<byte>, w: int, h: int, c: nat, k: Kernel, x: int, y: int) returns (v: byte)
    requires Buffer(src, w, h) && c < 4 && ValidKernel(k)
    ensures v == ConvAt(src, w, h, c, k, x, y)
  {
    var divisor := Divisor(k);
    var bias := Bias(k);
    var acc := 0.0;
    acc := AddTerm(acc, Sample(src, w, h, x - 1, y - 1, c), k.m[0]);
    acc := AddTerm(acc, Sample(src, w, h, x + 0, y - 1, c), k.m[1]);
    acc := AddTerm(acc, Sample(src, w, h, x + 1, y - 1, c), k.m[2]);
    acc := AddTerm(acc, Sample(src, w, h, x - 1, y + 0, c), k.m[3]);
    acc := AddTerm(acc, Sample(src, w, h, x + 0, y + 0, c), k.m[4]);
    acc := AddTerm(acc, Sample(src, w, h, x + 1, y + 0, c), k.m[5]);
    acc := AddTerm(acc, Sample(src, w, h, x - 1, y + 1, c), k.m[6]);
    acc := AddTerm(acc, Sample(src, w, h, x + 0, y + 1, c), k.m[7]);
    acc := AddTerm(acc, Sample(src, w, h, x + 1, y + 1, c), k.m[8]);
    assert acc == Acc(src, w, h, c, k.m, x, y);
    v := if divisor == 0.0 then (if acc > 0.0 then 255 else 0) else Clamp8(acc / divisor + bias);
  }

  /** Byte c of pixel p = (x, y) of the filtered buffer is ConvAt(x, y). */
  lemma ConvolvedAt(src: seq<byte>, w: int, h: int, c: nat, k: Kernel, x: int, y: int, p: int, i: int)
    requires Buffer(src, w, h) && c < 4 && ValidKernel(k) && 0 <= x < w && 0 <= y < h
    requires p == y * w + x && i == (y * w + x) * 4 + c
    ensures 0 <= p && i == p * 4 + c && 0 <= i < |src|
    ensures ConvolvedChannel(src, w, h, c, k)[i] == ConvAt(src, w, h, c, k, x, y)
  {
    ByteIndex(x, y, w, h, c);
  }

  /**
   * The output buffer after p pixels: channel c of the first p pixels holds
   * spec, every other byte still holds the copy of src.
   */
  predicate Marked(a: seq<byte>, src: seq<byte>, spec: seq<byte>, c: nat, p: nat)
  {
    |a| == |src| == |spec|
    && forall i :: 0 <= i < |src| ==> a[i] == (if i % 4 == c && i / 4 < p then spec[i] else src[i])
  }

  /** Writing spec[p*4 + c] extends the filtered prefix of channel c from p pixels to p + 1. */
  lemma MarkDone(before: seq<byte>, after: seq<byte>, src: seq<byte>, spec: seq<byte>, c: nat, p: nat)
    requires Marked(before, src, spec, c, p) && c < 4 && p * 4 + c < |src|
    requires after == before[p * 4 + c := spec[p * 4 + c]]
    ensures Marked(after, src, spec, c, p + 1)
  {
    forall i | 0 <= i < |src|
      ensures after[i] == (if i % 4 == c && i / 4 < p + 1 then spec[i] else src[i])
    {
      if i % 4 == c && i / 4 == p {
        assert i == p * 4 + c;
      }
    }
  }

  /** Once every pixel is done the buffer is the filtered one. */
  lemma MarkedAll(a: seq<byte>, src: seq<byte>, w: int, h: int, c: nat, k: Kernel)
    requires Buffer(src, w, h) && c < 4 && ValidKernel(k)
    requires Marked(a, src, ConvolvedChannel(src, w, h, c, k), c, h * w)
    ensures a == ConvolvedChannel(src, w, h, c, k)
  {
    forall i | 0 <= i < |src|
      ensures i / 4 < h * w
    {
      assert h * w == w * h;
    }
  }

  /** One step of the inner loop: pixel p = y*w + x gets its filtered channel c. */
  method FilterPixel(out: array<byte>, src: seq<byte>, w: int, h: int, c: nat, k: Kernel, x: nat, y: nat, ghost p: nat)
    requires Buffer(src, w, h) && c < 4 && ValidKernel(k)
    requires x < w && y < h && p == y * w + x
    requires Marked(out[..], src, ConvolvedChannel(src, w, h, c, k), c, p)
    modifies out
    ensures Marked(out[..], src, ConvolvedChannel(src, w, h, c, k), c, p + 1)
  {
    var v := ConvolvePixel(src, w, h, c, k, x, y);
    var i := (y * w + x) * 4 + c;
    ConvolvedAt(src, w, h, c, k, x, y, p, i);
    Store(out, i, v, src, ConvolvedChannel(src, w, h, c, k), c, p);
  }

  /** out[i] = v, where i = p*4 + c and v is the filtered byte there. */
  method Store(out: array<byte>, i: nat, v: byte, ghost src: seq<byte>, ghost spec: seq<byte>, c: nat, ghost p: nat)
    requires Marked(out[..], src, spec, c, p) && c < 4 && i == p * 4 + c && i < |src| && v == spec[i]
    modifies out
    ensures Marked(out[..], src, spec, c, p + 1)
  {
    ghost var before := out[..];
    out[i] := v;
    MarkDone(before, out[..], src, spec, c, p);
  }

  /** One row of convolveChannel3x3: pixels y*w .. y*w + w - 1. */
  method ConvolveRow(out: array<byte>, src: seq<byte>, w: int, h: int, c: nat, k: Kernel, y: nat)
    requires Buffer(src, w, h) && c < 4 && ValidKernel(k) && y < h
    requires Marked(out[..], src, ConvolvedChannel(src, w, h, c, k), c, y * w)
    modifies out
    ensures Marked(out[..], src, ConvolvedChannel(src, w, h, c, k), c, (y + 1) * w)
  {
    ghost var p := y * w;
    for x := 0 to w
      invariant p == y * w + x
      invariant Marked(out[..], src, ConvolvedChannel(src, w, h, c, k), c, p)
    {
      FilterPixel(out, src, w, h, c, k, x, y, p);
      p := p + 1;
    }
    assert p == (y + 1) * w;
  }

  /** convolveChannel3x3. */
  method ConvolveChannel3x3(src: seq<byte>, w: int, h: int, channelIndex: nat, k: Kernel) returns (res: seq<byte>)
    requires Buffer(src, w, h) && channelIndex < 4 && ValidKernel(k)
    ensures res == ConvolvedChannel(src, w, h, channelIndex, k)
  {
    ghost var spec := ConvolvedChannel(src, w, h, channelIndex, k);
    var out := new byte[|src|](i requires 0 <= i < |src| => src[i]);
    assert Marked(out[..], src, spec, channelIndex, 0);
    for y := 0 to h
      invariant Marked(out[..], src, spec, channelIndex, y * w)
    {
      ConvolveRow(out, src, w, h, channelIndex, k, y);
    }
    MarkedAll(out[..], src, w, h, channelIndex, k);
    res := out[..];
  }

  /** The data convolveRGB3x3 returns: R, then G, then B, each pass reading the previous one's output. */
  function RgbConvolved(data: seq<byte>, w: int, h: int, k: Kernel): (out: seq<byte>)
    requires Buffer(data, w, h) && ValidKernel(k)
    ensures |out| == |data|
  {
    var r := ConvolvedChannel(data, w, h, 0, k);
    var rg := ConvolvedChannel(r, w, h, 1, k);
    ConvolvedChannel(rg, w, h, 2, k)
  }

  /** convolveRGB3x3. */
  method ConvolveRgb3x3(img: ImageData, k: Kernel) returns (out: ImageData)
    requires ValidImageData(img) && ValidKernel(k)
    ensures out == ImageData(RgbConvolved(img.data, img.width, img.height, k), img.width, img.height)
  {
    var r := ConvolveChannel3x3(img.data, img.width, img.height, 0, k);
    var rg := ConvolveChannel3x3(r, img.width, img.height, 1, k);
    var rgba := ConvolveChannel3x3(rg, img.width, img.height, 2, k);
    out := ImageData(rgba, img.width, img.height);
  }

  /** convolveAlpha3x3. */
  method ConvolveAlpha3x3(img: ImageData, k: Kernel) returns (out: ImageData)
    requires ValidImageData(img) && ValidKernel(k)
    ensures out == ImageData(ConvolvedChannel(img.data, img.width, img.height, 3, k), img.width, img.height)
  {
    var a := ConvolveChannel3x3(img.data, img.width, img.height, 3, k);
    out := ImageData(a, img.width, img.height);
  }

  // ---------------------------------------------------------------------
  // Presets

  const IdentityKernel := Kernel([0.0, 0.0, 0.0, 0.0, 1.0, 0.0, 0.0, 0.0, 0.0], None, None)
  const Sharpen := Kernel([0.0, -1.0, 0.0, -1.0, 5.0, -1.0, 0.0, -1.0, 0.0], None, None)
  const Gauss3 := Kernel([1.0, 2.0, 1.0, 2.0, 4.0, 2.0, 1.0, 2.0, 1.0], Some(16.0), None)
  const Box := Kernel([1.0, 1.0, 1.0, 1.0, 1.0, 1.0, 1.0, 1.0, 1.0], Some(9.0), None)
  const PrewittX := Kernel([-1.0, 0.0, 1.0, -1.0, 0.0, 1.0, -1.0, 0.0, 1.0], Some(1.0), Some(128.0))
  const PrewittY := Kernel([-1.0, -1.0, -1.0, 0.0, 0.0, 0.0, 1.0, 1.0, 1.0], Some(1.0), Some(128.0))

  // ---------------------------------------------------------------------
  // Properties

  /** Pixel i / 4 sits at column (i / 4) % w of row (i / 4) / w. */
  lemma PixelOfIndex(i: nat, w: int, c: nat)
    requires w >= 1 && c < 4 && i % 4 == c
    ensures (((i / 4) / w) * w + (i / 4) % w) * 4 + c == i
  {
  }

  lemma IdentityAt(src: seq<byte>, w: int, h: int, c: nat, i: nat)
    requires Buffer(src, w, h) && c < 4 && i < |src| && i % 4 == c
    ensures ConvAt(src, w, h, c, IdentityKernel, (i / 4) % w, (i / 4) / w) == src[i]
  {
    var p := i / 4;
    var x, y := p % w, p / w;
    RowInBounds(p, w, h);
    PixelOfIndex(i, w, c);
    assert SampleIndex(w, h, x, y, c) == i;
    var a := Acc(src, w, h, c, IdentityKernel.m, x, y);
    assert a == Sample(src, w, h, x, y, c) as real;
    assert Divisor(IdentityKernel) == 1.0;
  }

  /** The identity preset leaves every channel it filters unchanged. */
  lemma {:induction false} IdentityPresetIsIdentity(src: seq<byte>, w: int, h: int, c: nat)
    requires Buffer(src, w, h) && c < 4
    ensures ConvolvedChannel(src, w, h, c, IdentityKernel) == src
  {
    forall i | 0 <= i < |src| && i % 4 == c
      ensures ConvolvedChannel(src, w, h, c, IdentityKernel)[i] == src[i]
    {
      IdentityAt(src, w, h, c, i);
    }
  }

  /** convolveRGB3x3 with the identity preset returns the image unchanged. */
  lemma RgbIdentityPresetIsIdentity(data: seq<byte>, w: int, h: int)
    requires Buffer(data, w, h)
    ensures RgbConvolved(data, w, h, IdentityKernel) == data
  {
    RgbIsPerChannel(data, w, h, IdentityKernel);
    IdentityPresetIsIdentity(data, w, h, 0);
    IdentityPresetIsIdentity(data, w, h, 1);
    IdentityPresetIsIdentity(data, w, h, 2);
  }

  lemma SampleSame(src: seq<byte>, src': seq<byte>, w: int, h: int, c: nat, x: int, y: int)
    requires Buffer(src, w, h) && Buffer(src', w, h) && c < 4
    requires forall i :: 0 <= i < |src| && i % 4 == c ==> src[i] == src'[i]
    ensures Sample(src, w, h, x, y, c) == Sample(src', w, h, x, y, c)
  {
    var i := SampleIndex(w, h, x, y, c);
    assert src[i] == src'[i];
  }

  /** Filtering channel c reads only channel c of the source. */
  lemma AccReadsOneChannel(src: seq<byte>, src': seq<byte>, w: int, h: int, c: nat, m: seq<real>, x: int, y: int)
    requires Buffer(src, w, h) && Buffer(src', w, h) && c < 4 && |m| == 9
    requires forall i :: 0 <= i < |src| && i % 4 == c ==> src[i] == src'[i]
    ensures Acc(src, w, h, c, m, x, y) == Acc(src', w, h, c, m, x, y)
  {
    SampleSame(src, src', w, h, c, x - 1, y - 1);
    SampleSame(src, src', w, h, c, x + 0, y - 1);
    SampleSame(src, src', w, h, c, x + 1, y - 1);
    SampleSame(src, src', w, h, c, x - 1, y + 0);
    SampleSame(src, src', w, h, c, x + 0, y + 0);
    SampleSame(src, src', w, h, c, x + 1, y + 0);
    SampleSame(src, src', w, h, c, x - 1, y + 1);
    SampleSame(src, src', w, h, c, x + 0, y + 1);
    SampleSame(src, src', w, h, c, x + 1, y + 1);
  }

  /** Filtering one channel and then another is the same as filtering each from the source. */
  lemma {:induction false} ChannelPassesCommute(src: seq<byte>, w: int, h: int, c: nat, d: nat, k: Kernel, i: nat)
    requires Buffer(src, w, h) && c < 4 && d < 4 && c != d && ValidKernel(k) && i < |src|
    ensures var out := ConvolvedChannel(ConvolvedChannel(src, w, h, c, k), w, h, d, k);
      out[i] == (if i % 4 == d then ConvolvedChannel(src, w, h, d, k)[i]
                 else if i % 4 == c then ConvolvedChannel(src, w, h, c, k)[i]
                 else src[i])
  {
    var mid := ConvolvedChannel(src, w, h, c, k);
    if i % 4 == d {
      AccReadsOneChannel(mid, src, w, h, d, k.m, (i / 4) % w, (i / 4) / w);
    }
  }

  /**
   * convolveRGB3x3 filters R, G and B each from the source (so the order of
   * the passes does not matter) and leaves alpha unchanged.
   */
  lemma {:induction false} RgbIsPerChannel(data: seq<byte>, w: int, h: int, k: Kernel)
    requires Buffer(data, w, h) && ValidKernel(k)
    ensures var out := RgbConvolved(data, w, h, k);
      forall i :: 0 <= i < |data| ==>
        out[i] == (if i % 4 == 3 then data[i] else ConvolvedChannel(data, w, h, i % 4, k)[i])
  {
    var r := ConvolvedChannel(data, w, h, 0, k);
    var rg := ConvolvedChannel(r, w, h, 1, k);
    forall i | 0 <= i < |data|
      ensures RgbConvolved(data, w, h, k)[i] == (if i % 4 == 3 then data[i] else ConvolvedChannel(data, w, h, i % 4, k)[i])
    {
      ChannelPassesCommute(data, w, h, 0, 1, k, i);
      if i % 4 == 2 {
        // the B pass reads only channel 2 of rg, which is channel 2 of data
        forall j | 0 <= j < |rg| && j % 4 == 2
          ensures rg[j] == data[j]
        {
          ChannelPassesCommute(data, w, h, 0, 1, k, j);
        }
        AccReadsOneChannel(rg, data, w, h, 2, k.m, (i / 4) % w, (i / 4) / w);
      }
    }
  }

  /** convolveAlpha3x3 leaves R, G and B unchanged. */
  lemma AlphaKeepsColour(img: ImageData, k: Kernel, i: nat)
    requires ValidImageData(img) && ValidKernel(k) && i < |img.data| && i % 4 != 3
    ensures ConvolvedChannel(img.data, img.width, img.height, 3, k)[i] == img.data[i]
  {
  }

  lemma SampleOfConstant(src: seq<byte>, w: int, h: int, c: nat, v: byte, x: int, y: int)
    requires Buffer(src, w, h) && c < 4
    requires forall i :: 0 <= i < |src| && i % 4 == c ==> src[i] == v
    ensures Sample(src, w, h, x, y, c) == v
  {
    var i := SampleIndex(w, h, x, y, c);
    assert src[i] == v;
  }

  /** On a channel that is v everywhere, the window sum is v times the coefficient sum. */
  lemma AccOfConstant(src: seq<byte>, w: int, h: int, c: nat, m: seq<real>, v: byte, x: int, y: int)
    requires Buffer(src, w, h) && c < 4 && |m| == 9
    requires forall i :: 0 <= i < |src| && i % 4 == c ==> src[i] == v
    ensures Acc(src, w, h, c, m, x, y) == v as real * Sum9(m)
  {
    SampleOfConstant(src, w, h, c, v, x - 1, y - 1);
    SampleOfConstant(src, w, h, c, v, x + 0, y - 1);
    SampleOfConstant(src, w, h, c, v, x + 1, y - 1);
    SampleOfConstant(src, w, h, c, v, x - 1, y + 0);
    SampleOfConstant(src, w, h, c, v, x + 0, y + 0);
    SampleOfConstant(src, w, h, c, v, x + 1, y + 0);
    SampleOfConstant(src, w, h, c, v, x - 1, y + 1);
    SampleOfConstant(src, w, h, c, v, x + 0, y + 1);
    SampleOfConstant(src, w, h, c, v, x + 1, y + 1);
    var r := v as real;
    assert r * Sum9(m) == r * m[0] + r * m[1] + r * m[2] + r * m[3] + r * m[4] + r * m[5] + r * m[6] + r * m[7] + r * m[8];
  }

  lemma FlatAt(src: seq<byte>, w: int, h: int, c: nat, k: Kernel, v: byte, x: int, y: int)
    requires Buffer(src, w, h) && c < 4 && ValidKernel(k) && Sum9(k.m) != 0.0 && Bias(k) == 0.0
    requires k.divisor.None? || k.divisor == Some(Sum9(k.m))
    requires forall i :: 0 <= i < |src| && i % 4 == c ==> src[i] == v
    ensures ConvAt(src, w, h, c, k, x, y) == v
  {
    AccOfConstant(src, w, h, c, k.m, v, x, y);
    var r, d := v as real, Sum9(k.m);
    assert Divisor(k) == d;
    OutValueOfScaled(Acc(src, w, h, c, k.m, x, y), r, d);
    assert Clamp8(r) == v;
  }

  /** Dividing a scaled value by the same non-zero divisor, without bias, gives the value back. */
  lemma OutValueOfScaled(a: real, r: real, d: real)
    requires d != 0.0 && a == r * d
    ensures OutValue(a, d, 0.0) == Clamp8(r)
  {
    assert a / d + 0.0 == r;
  }

  /**
   * A kernel whose divisor is its coefficient sum (given or defaulted) and
   * which has no bias maps a flat channel to itself: the smoothing presets
   * and sharpen do.
   */
  lemma {:induction false} NormalizedKernelKeepsFlat(src: seq<byte>, w: int, h: int, c: nat, k: Kernel, v: byte)
    requires Buffer(src, w, h) && c < 4 && ValidKernel(k) && Sum9(k.m) != 0.0 && Bias(k) == 0.0
    requires k.divisor.None? || k.divisor == Some(Sum9(k.m))
    requires forall i :: 0 <= i < |src| && i % 4 == c ==> src[i] == v
    ensures ConvolvedChannel(src, w, h, c, k) == src
  {
    forall i | 0 <= i < |src| && i % 4 == c
      ensures ConvolvedChannel(src, w, h, c, k)[i] == src[i]
    {
      FlatAt(src, w, h, c, k, v, (i / 4) % w, (i / 4) / w);
    }
  }

  /** The Prewitt presets map a flat channel to 128, the bias, whatever its value. */
  lemma {:induction false} PrewittOfFlatIsMidGrey(src: seq<byte>, w: int, h: int, c: nat, v: byte, vertical: bool)
    requires Buffer(src, w, h) && c < 4
    requires forall i :: 0 <= i < |src| && i % 4 == c ==> src[i] == v
    ensures var out := ConvolvedChannel(src, w, h, c, if vertical then PrewittY else PrewittX);
      forall i :: 0 <= i < |src| ==> out[i] == (if i % 4 == c then 128 else src[i])
  {
    var k := if vertical then PrewittY else PrewittX;
    forall i | 0 <= i < |src| && i % 4 == c
      ensures ConvolvedChannel(src, w, h, c, k)[i] == 128
    {
      AccOfConstant(src, w, h, c, k.m, v, (i / 4) % w, (i / 4) / w);
    }
  }

  /** The presets whose divisor equals their coefficient sum. */
  lemma PresetsNormalized()
    ensures Sum9(IdentityKernel.m) == 1.0 && Sum9(Sharpen.m) == 1.0
    ensures Gauss3.divisor == Some(Sum9(Gauss3.m)) && Box.divisor == Some(Sum9(Box.m))
    ensures Sum9(PrewittX.m) == 0.0 && Sum9(PrewittY.m) == 0.0
  {
  }
}
