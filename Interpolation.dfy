/**
 * The RGBA resamplers of src/utils/image/interpolation.ts: nearest-neighbour
 * and bilinear scaling of a srcWidth-by-srcHeight buffer into a fresh,
 * zero-filled dstWidth-by-dstHeight one.
 */
module Interpolation {
  import opened Common
  import opened Raster

  // ---------------------------------------------------------------------
  // Nearest neighbour

  /** Channel c of output pixel (x, y): source pixel (floor(x * sw/dw), floor(y * sh/dh)). */
  function NearestAt(src: seq<byte>, sw: int, sh: int, dw: int, dh: int, x: int, y: int, c: nat): byte
    requires Buffer(src, sw, sh) && 0 <= x < dw && 0 <= y < dh && c < 4
  {
    At(src, sw, sh, Cell(x, sw, dw), Cell(y, sh, dh), c)
  }

  /** The buffer scaleImageNearest returns. */
  function NearestScaled(src: seq<byte>, sw: int, sh: int, dw: nat, dh: nat): (out: seq<byte>)
    requires Buffer(src, sw, sh)
    ensures |out| == dw * dh * 4
  {
    seq(dw * dh * 4, k requires 0 <= k < dw * dh * 4 =>
      SplitIndex(k, dw, dh);
      NearestAt(src, sw, sh, dw, dh, (k / 4) % dw, (k / 4) / dw, k % 4))
  }

  /** Channel c of output pixel (x, y) is channel c of source pixel (srcX, srcY). */
  lemma NearestByteSource(src: seq<byte>, sw: int, sh: int, dw: nat, dh: nat, x: int, y: int,
                          srcX: int, srcY: int, c: nat)
    requires Buffer(src, sw, sh) && 0 <= x < dw && 0 <= y < dh && c < 4
    requires srcX == Cell(x, sw, dw) && srcY == Cell(y, sh, dh)
    ensures 0 <= (srcY * sw + srcX) * 4 + c < |src| && 0 <= (y * dw + x) * 4 + c < dw * dh * 4
    ensures NearestScaled(src, sw, sh, dw, dh)[(y * dw + x) * 4 + c] == src[(srcY * sw + srcX) * 4 + c]
  {
    ByteIndex(srcX, srcY, sw, sh, c);
    ByteIndex(x, y, dw, dh, c);
  }

  /** The four bytes of output pixel p = (x, y) are the four bytes of source pixel q = (srcX, srcY). */
  lemma NearestPixelSource(src: seq<byte>, sw: int, sh: int, dw: nat, dh: nat, x: int, y: int,
                           srcX: int, srcY: int, p: int, q: int)
    requires Buffer(src, sw, sh) && 0 <= x < dw && 0 <= y < dh
    requires srcX == Cell(x, sw, dw) && srcY == Cell(y, sh, dh)
    requires q == srcY * sw + srcX && p == y * dw + x
    ensures 0 <= q && 4 * q + 4 <= |src| && 0 <= p && 4 * p + 4 <= |NearestScaled(src, sw, sh, dw, dh)|
    ensures var spec := NearestScaled(src, sw, sh, dw, dh);
      spec[4 * p] == src[4 * q] && spec[4 * p + 1] == src[4 * q + 1]
      && spec[4 * p + 2] == src[4 * q + 2] && spec[4 * p + 3] == src[4 * q + 3]
  {
    NearestByteSource(src, sw, sh, dw, dh, x, y, srcX, srcY, 0);
    NearestByteSource(src, sw, sh, dw, dh, x, y, srcX, srcY, 1);
    NearestByteSource(src, sw, sh, dw, dh, x, y, srcX, srcY, 2);
    NearestByteSource(src, sw, sh, dw, dh, x, y, srcX, srcY, 3);
  }

  /** One step of the inner loop: dstData.set(src.subarray(srcIdx, srcIdx + 4), dstIdx). */
  method NearestPixel(dst: array<byte>, src: seq<byte>, sw: int, sh: int, dw: nat, dh: nat,
                      xRatio: real, yRatio: real, x: nat, y: nat)
    requires Buffer(src, sw, sh) && x < dw && y < dh
    requires xRatio == (sw as real) / (dw as real) && yRatio == (sh as real) / (dh as real)
    requires Filled(dst[..], NearestScaled(src, sw, sh, dw, dh), (y * dw + x) * 4)
    modifies dst
    ensures Filled(dst[..], NearestScaled(src, sw, sh, dw, dh), (y * dw + x) * 4 + 4)
  {
    ghost var spec := NearestScaled(src, sw, sh, dw, dh);
    var srcX := ((x as real) * xRatio).Floor;
    var srcY := ((y as real) * yRatio).Floor;
    FloorIsCell(x, sw, dw, xRatio);
    FloorIsCell(y, sh, dh, yRatio);
    var srcIdx := (srcY * sw + srcX) * 4;
    var dstIdx := (y * dw + x) * 4;
    NearestPixelSource(src, sw, sh, dw, dh, x, y, srcX, srcY, y * dw + x, srcY * sw + srcX);
    ghost var before := dst[..];
    dst[dstIdx] := src[srcIdx];
    dst[dstIdx + 1] := src[srcIdx + 1];
    dst[dstIdx + 2] := src[srcIdx + 2];
    dst[dstIdx + 3] := src[srcIdx + 3];
    PixelFilled(before, dst[..], spec, y * dw + x);
  }

  /** One row of scaleImageNearest. */
  method NearestRow(dst: array<byte>, src: seq<byte>, sw: int, sh: int, dw: nat, dh: nat,
                    xRatio: real, yRatio: real, y: nat)
    requires Buffer(src, sw, sh) && dw >= 1 && y < dh
    requires xRatio == (sw as real) / (dw as real) && yRatio == (sh as real) / (dh as real)
    requires Filled(dst[..], NearestScaled(src, sw, sh, dw, dh), (y * dw) * 4)
    modifies dst
    ensures Filled(dst[..], NearestScaled(src, sw, sh, dw, dh), ((y + 1) * dw) * 4)
  {
    for x := 0 to dw
      invariant Filled(dst[..], NearestScaled(src, sw, sh, dw, dh), (y * dw + x) * 4)
    {
      NearestPixel(dst, src, sw, sh, dw, dh, xRatio, yRatio, x, y);
    }
    assert y * dw + dw == (y + 1) * dw;
  }

  /**
   * scaleImageNearest. The loops run no iteration when dstWidth or dstHeight
   * is 0; the ratios are then not needed.
   */
  method ScaleImageNearest(src: seq<byte>, srcWidth: int, srcHeight: int, dstWidth: nat, dstHeight: nat)
    returns (dstData: seq<byte>)
    requires Buffer(src, srcWidth, srcHeight)
    ensures dstData == NearestScaled(src, srcWidth, srcHeight, dstWidth, dstHeight)
  {
    ghost var spec := NearestScaled(src, srcWidth, srcHeight, dstWidth, dstHeight);
    var dst := new byte[dstWidth * dstHeight * 4](_ => 0);
    FilledNone(dst[..], spec);
    if dstWidth == 0 || dstHeight == 0 {
      assert dstWidth * dstHeight == 0;
      return dst[..];
    }
    var xRatio := (srcWidth as real) / (dstWidth as real);
    var yRatio := (srcHeight as real) / (dstHeight as real);
    for y := 0 to dstHeight
      invariant Filled(dst[..], spec, (y * dstWidth) * 4)
    {
      NearestRow(dst, src, srcWidth, srcHeight, dstWidth, dstHeight, xRatio, yRatio, y);
    }
    assert dstHeight * dstWidth == dstWidth * dstHeight;
    FilledAll(dst[..], spec);
    dstData := dst[..];
  }

  // ---------------------------------------------------------------------
  // Bilinear

  /** The weighted sum of the four neighbours, term by term as interpolation.ts writes it. */
  function Blend(v00: real, v01: real, v10: real, v11: real, dx: real, dy: real): real
  {
    v00 * (1.0 - dx) * (1.0 - dy) + v01 * dx * (1.0 - dy) + v10 * (1.0 - dx) * dy + v11 * dx * dy
  }

  lemma BlendNested(v00: real, v01: real, v10: real, v11: real, dx: real, dy: real)
    ensures Blend(v00, v01, v10, v11, dx, dy)
         == (v00 * (1.0 - dx) + v01 * dx) * (1.0 - dy) + (v10 * (1.0 - dx) + v11 * dx) * dy
  {
  }

  /** With weights in [0, 1] the blend stays between any bounds of the four values. */
  lemma BlendBounds(v00: real, v01: real, v10: real, v11: real, dx: real, dy: real, lo: real, hi: real)
    requires lo <= v00 <= hi && lo <= v01 <= hi && lo <= v10 <= hi && lo <= v11 <= hi
    requires 0.0 <= dx <= 1.0 && 0.0 <= dy <= 1.0
    ensures lo <= Blend(v00, v01, v10, v11, dx, dy) <= hi
  {
    BlendBetween(v00, v01, v10, v11, dx, dy, lo, hi);
    BlendNested(v00, v01, v10, v11, dx, dy);
  }

  /** The unrounded value of channel c of output pixel (x, y), sampled at x * (sw-1)/dw, y * (sh-1)/dh. */
  function BilinearValue(src: seq<byte>, sw: int, sh: int, dw: int, dh: int, x: int, y: int, c: nat): real
    requires Buffer(src, sw, sh) && 0 <= x < dw && 0 <= y < dh && c < 4
  {
    var gxi, gyi := Cell(x, sw - 1, dw), Cell(y, sh - 1, dh);
    var x1, y1 := Next(gxi, sw), Next(gyi, sh);
    Blend(At(src, sw, sh, gxi, gyi, c) as real, At(src, sw, sh, x1, gyi, c) as real,
          At(src, sw, sh, gxi, y1, c) as real, At(src, sw, sh, x1, y1, c) as real,
          Frac(x, sw - 1, dw), Frac(y, sh - 1, dh))
  }

  /** The byte stored: Math.round of the value, which already lies in [0, 255]. */
  function BilinearAt(src: seq<byte>, sw: int, sh: int, dw: int, dh: int, x: int, y: int, c: nat): byte
    requires Buffer(src, sw, sh) && 0 <= x < dw && 0 <= y < dh && c < 4
  {
    ValueInRange(src, sw, sh, dw, dh, x, y, c);
    Round(BilinearValue(src, sw, sh, dw, dh, x, y, c))
  }

  lemma ValueInRange(src: seq<byte>, sw: int, sh: int, dw: int, dh: int, x: int, y: int, c: nat)
    requires Buffer(src, sw, sh) && 0 <= x < dw && 0 <= y < dh && c < 4
    ensures 0 <= Round(BilinearValue(src, sw, sh, dw, dh, x, y, c)) <= 255
  {
    var gxi, gyi := Cell(x, sw - 1, dw), Cell(y, sh - 1, dh);
    var x1, y1 := Next(gxi, sw), Next(gyi, sh);
    BlendBounds(At(src, sw, sh, gxi, gyi, c) as real, At(src, sw, sh, x1, gyi, c) as real,
                At(src, sw, sh, gxi, y1, c) as real, At(src, sw, sh, x1, y1, c) as real,
                Frac(x, sw - 1, dw), Frac(y, sh - 1, dh), 0.0, 255.0);
    RoundBetween(BilinearValue(src, sw, sh, dw, dh, x, y, c), 0, 255);
  }

  /** The buffer scaleImageBilinear returns. */
  function BilinearScaled(src: seq<byte>, sw: int, sh: int, dw: nat, dh: nat): (out: seq<byte>)
    requires Buffer(src, sw, sh)
    ensures |out| == dw * dh * 4
  {
    seq(dw * dh * 4, k requires 0 <= k < dw * dh * 4 =>
      SplitIndex(k, dw, dh);
      BilinearAt(src, sw, sh, dw, dh, (k / 4) % dw, (k / 4) / dw, k % 4))
  }

  lemma BilinearScaledAt(src: seq<byte>, sw: int, sh: int, dw: nat, dh: nat, x: int, y: int, c: nat)
    requires Buffer(src, sw, sh) && 0 <= x < dw && 0 <= y < dh && c < 4
    ensures var k := (y * dw + x) * 4 + c;
      0 <= k < dw * dh * 4 && BilinearScaled(src, sw, sh, dw, dh)[k] == BilinearAt(src, sw, sh, dw, dh, x, y, c)
  {
    ByteIndex(x, y, dw, dh, c);
  }

  /** Channel c of output pixel p = (x, y) is the rounded blend of the four neighbours at its cell. */
  lemma BilinearByte(src: seq<byte>, sw: int, sh: int, dw: nat, dh: nat, x: int, y: int,
                     gxi: int, gyi: int, x1: int, y1: int, dx: real, dy: real, c: nat, p: int)
    requires Buffer(src, sw, sh) && 0 <= x < dw && 0 <= y < dh && c < 4
    requires gxi == Cell(x, sw - 1, dw) && gyi == Cell(y, sh - 1, dh)
    requires x1 == Next(gxi, sw) && y1 == Next(gyi, sh)
    requires dx == Frac(x, sw - 1, dw) && dy == Frac(y, sh - 1, dh)
    requires p == y * dw + x
    ensures 0 <= p && 4 * p + 4 <= |BilinearScaled(src, sw, sh, dw, dh)|
    ensures var val := Blend(At(src, sw, sh, gxi, gyi, c) as real, At(src, sw, sh, x1, gyi, c) as real,
                             At(src, sw, sh, gxi, y1, c) as real, At(src, sw, sh, x1, y1, c) as real, dx, dy);
      0 <= Round(val) <= 255 && BilinearScaled(src, sw, sh, dw, dh)[4 * p + c] == Round(val)
  {
    ByteIndex(x, y, dw, dh, c);
    ByteIndex(x, y, dw, dh, 3);
    ValueInRange(src, sw, sh, dw, dh, x, y, c);
  }

  /** One step of the channel loop: dstData[(y * dstWidth + x) * 4 + ch] = Math.round(val). */
  method BilinearChannel(dst: array<byte>, src: seq<byte>, sw: int, sh: int, dw: nat, dh: nat,
                         x: nat, y: nat, gxi: int, gyi: int, x1: int, y1: int, dx: real, dy: real, ch: nat, ghost p: nat)
    requires Buffer(src, sw, sh) && x < dw && y < dh && ch < 4 && p == y * dw + x
    requires gxi == Cell(x, sw - 1, dw) && gyi == Cell(y, sh - 1, dh)
    requires x1 == Next(gxi, sw) && y1 == Next(gyi, sh)
    requires dx == Frac(x, sw - 1, dw) && dy == Frac(y, sh - 1, dh)
    requires Filled(dst[..], BilinearScaled(src, sw, sh, dw, dh), 4 * p + ch)
    modifies dst
    ensures Filled(dst[..], BilinearScaled(src, sw, sh, dw, dh), 4 * p + ch + 1)
  {
    BilinearByte(src, sw, sh, dw, dh, x, y, gxi, gyi, x1, y1, dx, dy, ch, p);
    var v00 := At(src, sw, sh, gxi, gyi, ch);
    var v01 := At(src, sw, sh, x1, gyi, ch);
    var v10 := At(src, sw, sh, gxi, y1, ch);
    var v11 := At(src, sw, sh, x1, y1, ch);
    var val := Blend(v00 as real, v01 as real, v10 as real, v11 as real, dx, dy);
    ghost var before := dst[..];
    dst[(y * dw + x) * 4 + ch] := Round(val);
    assert (y * dw + x) * 4 + ch == 4 * p + ch;
    ByteFilled(before, dst[..], BilinearScaled(src, sw, sh, dw, dh), 4 * p + ch);
  }

  /** One output pixel: its cell, weights and clamped neighbours, then the channel loop. */
  method BilinearPixel(dst: array<byte>, src: seq<byte>, sw: int, sh: int, dw: nat, dh: nat,
                       xRatio: real, yRatio: real, x: nat, y: nat, ghost p: nat)
    requires Buffer(src, sw, sh) && x < dw && y < dh && p == y * dw + x
    requires xRatio == ((sw - 1) as real) / (dw as real) && yRatio == ((sh - 1) as real) / (dh as real)
    requires Filled(dst[..], BilinearScaled(src, sw, sh, dw, dh), 4 * p)
    modifies dst
    ensures Filled(dst[..], BilinearScaled(src, sw, sh, dw, dh), 4 * p + 4)
  {
    var gx := (x as real) * xRatio;
    var gy := (y as real) * yRatio;
    var gxi := gx.Floor;
    var gyi := gy.Floor;
    var dx := gx - gxi as real;
    var dy := gy - gyi as real;
    FloorIsCell(x, sw - 1, dw, xRatio);
    FloorIsCell(y, sh - 1, dh, yRatio);
    var x1 := Min(gxi + 1, sw - 1);
    var y1 := Min(gyi + 1, sh - 1);
    for ch := 0 to 4
      invariant Filled(dst[..], BilinearScaled(src, sw, sh, dw, dh), 4 * p + ch)
    {
      BilinearChannel(dst, src, sw, sh, dw, dh, x, y, gxi, gyi, x1, y1, dx, dy, ch, p);
    }
  }

  /** One row of scaleImageBilinear. */
  method BilinearRow(dst: array<byte>, src: seq<byte>, sw: int, sh: int, dw: nat, dh: nat,
                     xRatio: real, yRatio: real, y: nat)
    requires Buffer(src, sw, sh) && dw >= 1 && y < dh
    requires xRatio == ((sw - 1) as real) / (dw as real) && yRatio == ((sh - 1) as real) / (dh as real)
    requires Filled(dst[..], BilinearScaled(src, sw, sh, dw, dh), (y * dw) * 4)
    modifies dst
    ensures Filled(dst[..], BilinearScaled(src, sw, sh, dw, dh), ((y + 1) * dw) * 4)
  {
    ghost var p: nat := y * dw;
    assert (y * dw) * 4 == 4 * p;
    for x := 0 to dw
      invariant p == y * dw + x
      invariant Filled(dst[..], BilinearScaled(src, sw, sh, dw, dh), 4 * p)
    {
      BilinearPixel(dst, src, sw, sh, dw, dh, xRatio, yRatio, x, y, p);
      p := p + 1;
    }
    assert y * dw + dw == (y + 1) * dw;
    assert 4 * p == ((y + 1) * dw) * 4;
  }

  /** scaleImageBilinear. */
  method ScaleImageBilinear(src: seq<byte>, srcWidth: int, srcHeight: int, dstWidth: nat, dstHeight: nat)
    returns (dstData: seq<byte>)
    requires Buffer(src, srcWidth, srcHeight)
    ensures dstData == BilinearScaled(src, srcWidth, srcHeight, dstWidth, dstHeight)
  {
    ghost var spec := BilinearScaled(src, srcWidth, srcHeight, dstWidth, dstHeight);
    var dst := new byte[dstWidth * dstHeight * 4](_ => 0);
    FilledNone(dst[..], spec);
    if dstWidth == 0 || dstHeight == 0 {
      assert dstWidth * dstHeight == 0;
      return dst[..];
    }
    var xRatio := ((srcWidth - 1) as real) / (dstWidth as real);
    var yRatio := ((srcHeight - 1) as real) / (dstHeight as real);
    for y := 0 to dstHeight
      invariant Filled(dst[..], spec, (y * dstWidth) * 4)
    {
      BilinearRow(dst, src, srcWidth, srcHeight, dstWidth, dstHeight, xRatio, yRatio, y);
    }
    assert dstHeight * dstWidth == dstWidth * dstHeight;
    FilledAll(dst[..], spec);
    dstData := dst[..];
  }

  // ---------------------------------------------------------------------
  // Properties

  /** Output pixel (x, y) is a verbatim copy of source pixel (x*sw / dw, y*sh / dh), which always exists. */
  lemma NearestCopiesPixel(src: seq<byte>, sw: int, sh: int, dw: nat, dh: nat, x: int, y: int)
    requires Buffer(src, sw, sh) && 0 <= x < dw && 0 <= y < dh
    ensures Buffer(NearestScaled(src, sw, sh, dw, dh), dw, dh)
    ensures 0 <= (x * sw) / dw < sw && 0 <= (y * sh) / dh < sh
    ensures PixelOf(NearestScaled(src, sw, sh, dw, dh), dw, dh, x, y)
         == PixelOf(src, sw, sh, (x * sw) / dw, (y * sh) / dh)
  {
    var out := NearestScaled(src, sw, sh, dw, dh);
    var sx, sy := Cell(x, sw, dw), Cell(y, sh, dh);
    forall c | 0 <= c < 4
      ensures At(out, dw, dh, x, y, c) == At(src, sw, sh, sx, sy, c)
    {
      NearestByteSource(src, sw, sh, dw, dh, x, y, sx, sy, c);
    }
  }

  /** Scaling with the nearest neighbour to the source's own size returns the source. */
  lemma {:induction false} NearestSameSizeIsIdentity(src: seq<byte>, w: int, h: int)
    requires Buffer(src, w, h)
    ensures NearestScaled(src, w, h, w, h) == src
  {
    var out := NearestScaled(src, w, h, w, h);
    forall k | 0 <= k < |src|
      ensures out[k] == src[k]
    {
      SplitIndex(k, w, h);
      SameSizeCell((k / 4) % w, w);
      SameSizeCell((k / 4) / w, h);
    }
  }

  /** An image whose every pixel has colour col scales, by nearest neighbour, to an image of that colour. */
  lemma {:induction false} NearestOfConstant(src: seq<byte>, sw: int, sh: int, dw: nat, dh: nat, col: seq<byte>)
    requires Buffer(src, sw, sh) && |col| == 4
    requires forall k :: 0 <= k < |src| ==> src[k] == col[k % 4]
    ensures forall k :: 0 <= k < dw * dh * 4 ==> NearestScaled(src, sw, sh, dw, dh)[k] == col[k % 4]
  {
    forall k | 0 <= k < dw * dh * 4
      ensures NearestScaled(src, sw, sh, dw, dh)[k] == col[k % 4]
    {
      SplitIndex(k, dw, dh);
      var x, y := (k / 4) % dw, (k / 4) / dw;
      ByteIndex(Cell(x, sw, dw), Cell(y, sh, dh), sw, sh, k % 4);
    }
  }

  /**
   * Each bilinear byte lies between the smallest and the largest of its four
   * neighbours: source pixels (gxi, gyi), (x1, gyi), (gxi, y1), (x1, y1), with
   * gxi = floor(x * (sw-1)/dw), gyi = floor(y * (sh-1)/dh) and x1, y1 the next
   * column and row clamped to the image.
   */
  lemma BilinearBetween(src: seq<byte>, sw: int, sh: int, dw: nat, dh: nat, x: int, y: int, c: nat)
    requires Buffer(src, sw, sh) && 0 <= x < dw && 0 <= y < dh && c < 4
    ensures var gxi, gyi := (x * (sw - 1)) / dw, (y * (sh - 1)) / dh;
      var x1, y1 := Min(gxi + 1, sw - 1), Min(gyi + 1, sh - 1);
      0 <= gxi <= x1 < sw && 0 <= gyi <= y1 < sh
      && var v00, v01, v10, v11 := At(src, sw, sh, gxi, gyi, c), At(src, sw, sh, x1, gyi, c),
                                   At(src, sw, sh, gxi, y1, c), At(src, sw, sh, x1, y1, c);
      Lo4(v00, v01, v10, v11) <= BilinearAt(src, sw, sh, dw, dh, x, y, c) <= Hi4(v00, v01, v10, v11)
  {
    var gxi, gyi := Cell(x, sw - 1, dw), Cell(y, sh - 1, dh);
    var x1, y1 := Next(gxi, sw), Next(gyi, sh);
    var v00, v01, v10, v11 := At(src, sw, sh, gxi, gyi, c), At(src, sw, sh, x1, gyi, c),
                              At(src, sw, sh, gxi, y1, c), At(src, sw, sh, x1, y1, c);
    var lo, hi := Lo4(v00, v01, v10, v11), Hi4(v00, v01, v10, v11);
    BlendBounds(v00 as real, v01 as real, v10 as real, v11 as real,
                Frac(x, sw - 1, dw), Frac(y, sh - 1, dh), lo as real, hi as real);
    RoundBetween(BilinearValue(src, sw, sh, dw, dh, x, y, c), lo, hi);
  }

  /** An image whose every pixel has colour col scales, bilinearly, to an image of that colour. */
  lemma {:induction false} BilinearOfConstant(src: seq<byte>, sw: int, sh: int, dw: nat, dh: nat, col: seq<byte>)
    requires Buffer(src, sw, sh) && |col| == 4
    requires forall k :: 0 <= k < |src| ==> src[k] == col[k % 4]
    ensures forall k :: 0 <= k < dw * dh * 4 ==> BilinearScaled(src, sw, sh, dw, dh)[k] == col[k % 4]
  {
    forall k | 0 <= k < dw * dh * 4
      ensures BilinearScaled(src, sw, sh, dw, dh)[k] == col[k % 4]
    {
      SplitIndex(k, dw, dh);
      var x, y := (k / 4) % dw, (k / 4) / dw;
      BilinearScaledAt(src, sw, sh, dw, dh, x, y, k % 4);
      BilinearConstantAt(src, sw, sh, dw, dh, col, x, y, k % 4);
    }
  }

  /** One byte of the bilinear scaling of an image of one colour is that colour's channel. */
  lemma BilinearConstantAt(src: seq<byte>, sw: int, sh: int, dw: nat, dh: nat, col: seq<byte>, x: int, y: int, c: nat)
    requires Buffer(src, sw, sh) && |col| == 4 && 0 <= x < dw && 0 <= y < dh && c < 4
    requires forall k :: 0 <= k < |src| ==> src[k] == col[k % 4]
    ensures BilinearAt(src, sw, sh, dw, dh, x, y, c) == col[c]
  {
    var gxi, gyi := Cell(x, sw - 1, dw), Cell(y, sh - 1, dh);
    var x1, y1 := Next(gxi, sw), Next(gyi, sh);
    ByteIndex(gxi, gyi, sw, sh, c);
    ByteIndex(x1, gyi, sw, sh, c);
    ByteIndex(gxi, y1, sw, sh, c);
    ByteIndex(x1, y1, sw, sh, c);
    BilinearBetween(src, sw, sh, dw, dh, x, y, c);
  }

  /** At weights 0 and 0 the blend is the first neighbour. */
  lemma BlendAtCorner(v00: real, v01: real, v10: real, v11: real)
    ensures Blend(v00, v01, v10, v11, 0.0, 0.0) == v00
  {
  }

  /** Output pixel (0, 0) is source pixel (0, 0): both weights are 0 there. */
  lemma BilinearKeepsOrigin(src: seq<byte>, sw: int, sh: int, dw: nat, dh: nat)
    requires Buffer(src, sw, sh) && dw >= 1 && dh >= 1
    ensures Buffer(BilinearScaled(src, sw, sh, dw, dh), dw, dh)
    ensures PixelOf(BilinearScaled(src, sw, sh, dw, dh), dw, dh, 0, 0) == PixelOf(src, sw, sh, 0, 0)
  {
    var out := BilinearScaled(src, sw, sh, dw, dh);
    assert Cell(0, sw - 1, dw) == 0 && Frac(0, sw - 1, dw) == 0.0;
    assert Cell(0, sh - 1, dh) == 0 && Frac(0, sh - 1, dh) == 0.0;
    forall c | 0 <= c < 4
      ensures At(out, dw, dh, 0, 0, c) == At(src, sw, sh, 0, 0, c)
    {
      BilinearScaledAt(src, sw, sh, dw, dh, 0, 0, c);
      var v := At(src, sw, sh, 0, 0, c);
      BlendAtCorner(v as real, At(src, sw, sh, Next(0, sw), 0, c) as real,
                    At(src, sw, sh, 0, Next(0, sh), c) as real, At(src, sw, sh, Next(0, sw), Next(0, sh), c) as real);
      RoundOfInt(v);
    }
  }

  /**
   * Scaling to the same size is not the identity: the sampling step is
   * (srcWidth-1)/dstWidth, so column 1 of a 2-by-1 image is sampled halfway
   * between its two pixels.
   */
  lemma SameSizeBilinearIsNotIdentity()
    ensures var src := [0, 0, 0, 0, 255, 255, 255, 255];
      BilinearScaled(src, 2, 1, 2, 1)[4] == 128 && BilinearScaled(src, 2, 1, 2, 1) != src
  {
    var src: seq<byte> := [0, 0, 0, 0, 255, 255, 255, 255];
    BilinearScaledAt(src, 2, 1, 2, 1, 1, 0, 0);
    assert Cell(1, 1, 2) == 0 && Frac(1, 1, 2) == 0.5;
    assert Cell(0, 0, 1) == 0 && Frac(0, 0, 1) == 0.0;
    assert Next(0, 2) == 1 && Next(0, 1) == 0;
    assert At(src, 2, 1, 0, 0, 0) == 0 && At(src, 2, 1, 1, 0, 0) == 255;
    assert Blend(0.0, 255.0, 0.0, 255.0, 0.5, 0.0) == 127.5;
    assert BilinearValue(src, 2, 1, 2, 1, 1, 0, 0) == 127.5;
  }
}
