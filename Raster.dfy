/**
 * Row-major RGBA buffers as the resamplers see them: reading one channel of
 * one pixel, and the fill state of an output buffer written pixel by pixel
 * into a zeroed allocation.
 */
module Raster {
  import opened Common

  /** A w-by-h RGBA buffer. */
  predicate Buffer(src: seq<byte>, w: int, h: int)
  {
    w >= 1 && h >= 1 && |src| == w * h * 4
  }

  /** Channel c of pixel (x, y). */
  function At(src: seq<byte>, w: int, h: int, x: int, y: int, c: nat): byte
    requires Buffer(src, w, h) && 0 <= x < w && 0 <= y < h && c < 4
  {
    ByteIndex(x, y, w, h, c);
    src[(y * w + x) * 4 + c]
  }

  /** The four bytes of pixel (x, y). */
  function PixelOf(src: seq<byte>, w: int, h: int, x: int, y: int): (px: seq<byte>)
    requires Buffer(src, w, h) && 0 <= x < w && 0 <= y < h
    ensures |px| == 4 && forall c :: 0 <= c < 4 ==> px[c] == At(src, w, h, x, y, c)
  {
    ByteIndex(x, y, w, h, 3);
    src[(y * w + x) * 4 .. (y * w + x) * 4 + 4]
  }

  /** Byte k of a w-by-h buffer is channel k % 4 of pixel ((k / 4) % w, (k / 4) / w). */
  lemma SplitIndex(k: int, w: int, h: int)
    requires w >= 0 && h >= 0 && 0 <= k < w * h * 4
    ensures w >= 1 && h >= 1
    ensures 0 <= (k / 4) % w < w && 0 <= (k / 4) / w < h
    ensures (((k / 4) / w) * w + (k / 4) % w) * 4 + k % 4 == k
  {
    DivBelow(k, w * h, 4);
    RowInBounds(k / 4, w, h);
  }

  /** The first m bytes of a hold spec, the rest still hold the zero fill. */
  predicate Filled(a: seq<byte>, spec: seq<byte>, m: nat)
  {
    |a| == |spec| && m <= |spec|
    && forall k {:trigger a[k]} :: 0 <= k < |a| ==> a[k] == (if k < m then spec[k] else 0)
  }

  /** Writing byte m extends the filled prefix by one byte. */
  lemma ByteFilled(before: seq<byte>, after: seq<byte>, spec: seq<byte>, m: nat)
    requires Filled(before, spec, m) && m < |spec|
    requires after == before[m := spec[m]]
    ensures Filled(after, spec, m + 1)
  {
  }

  /** Writing the four bytes of pixel p extends the filled prefix by one pixel. */
  lemma PixelFilled(before: seq<byte>, after: seq<byte>, spec: seq<byte>, p: nat)
    requires Filled(before, spec, 4 * p) && 4 * p + 4 <= |spec|
    requires after == before[4 * p := spec[4 * p]][4 * p + 1 := spec[4 * p + 1]]
                            [4 * p + 2 := spec[4 * p + 2]][4 * p + 3 := spec[4 * p + 3]]
    ensures Filled(after, spec, 4 * p + 4)
  {
  }

  lemma FilledAll(a: seq<byte>, spec: seq<byte>)
    requires Filled(a, spec, |spec|)
    ensures a == spec
  {
  }

  /** A zeroed buffer has nothing filled. */
  lemma FilledNone(a: seq<byte>, spec: seq<byte>)
    requires |a| == |spec| && forall k :: 0 <= k < |a| ==> a[k] == 0
    ensures Filled(a, spec, 0)
  {
  }

  // ---------------------------------------------------------------------
  // Sampling positions: output column x of d samples the source at x * (n / d)

  /** x * (n / d) on exact reals. */
  function Position(x: int, n: int, d: int): real
    requires d >= 1
  {
    (x as real) * ((n as real) / (d as real))
  }

  lemma PositionQuotient(x: int, n: int, d: int)
    requires d >= 1
    ensures Position(x, n, d) == ((x * n) as real) / (d as real)
  {
  }

  /** Math.floor(x * (n / d)): the source cell of output column x, always in [0, n], below n when n > 0. */
  function Cell(x: int, n: int, d: int): (r: int)
    requires 0 <= x < d && n >= 0
    ensures r == (x * n) / d
    ensures 0 <= r <= n && (n > 0 ==> r < n)
  {
    PositionQuotient(x, n, d);
    FloorOfQuotient(x * n, d);
    assert 0 <= (x * n) / d <= n && (n > 0 ==> (x * n) / d < n) by {
      if n > 0 { ScaledIndexBelow(x, n, d); }
    }
    Position(x, n, d).Floor
  }

  /** The fractional part of the sampling position: the interpolation weight, in [0, 1). */
  function Frac(x: int, n: int, d: int): (t: real)
    requires 0 <= x < d && n >= 0
    ensures 0.0 <= t < 1.0
    ensures Position(x, n, d) == Cell(x, n, d) as real + t
  {
    Position(x, n, d) - Cell(x, n, d) as real
  }

  /** Math.min(i + 1, s - 1): the neighbour cell, clamped to the last row or column. */
  function Next(i: int, s: int): (r: int)
    requires 0 <= i < s
    ensures 0 <= r < s && (r == i + 1 || r == i)
  {
    Min(i + 1, s - 1)
  }

  /** Math.floor(x * ratio) with ratio == n / d is the cell of x. */
  lemma FloorIsCell(x: int, n: int, d: int, ratio: real)
    requires 0 <= x < d && n >= 0 && ratio == (n as real) / (d as real)
    ensures ((x as real) * ratio).Floor == Cell(x, n, d)
    ensures (x as real) * ratio - ((x as real) * ratio).Floor as real == Frac(x, n, d)
  {
  }

  /** x * w / w == x: at the same size every output column samples its own column. */
  lemma SameSizeCell(x: int, w: int)
    requires 0 <= x < w
    ensures Cell(x, w, w) == x && Frac(x, w, w) == 0.0
  {
    PixelCoords(0, x, w);
    assert (w as real) / (w as real) == 1.0;
  }

  function Lo4(a: int, b: int, c: int, d: int): int { Min(Min(a, b), Min(c, d)) }

  function Hi4(a: int, b: int, c: int, d: int): int { Max(Max(a, b), Max(c, d)) }

  /** a*(1-t) + b*t, written from the smaller end. */
  lemma MixUp(a: real, b: real, t: real)
    ensures a * (1.0 - t) + b * t == a + (b - a) * t
  {
  }

  lemma MixDown(a: real, b: real, t: real)
    ensures a * (1.0 - t) + b * t == b + (a - b) * (1.0 - t)
  {
  }

  /** Adding a fraction of a non-negative step that fits below hi stays between lo and hi. */
  lemma OffsetBetween(base: real, d: real, t: real, lo: real, hi: real)
    requires lo <= base && base + d <= hi && d >= 0.0 && 0.0 <= t <= 1.0
    ensures lo <= base + d * t <= hi
  {
    ScaleBelow(d, t);
  }

  /** A weighted mean of two values with weight t in [0, 1] lies between them. */
  lemma MixBetween(a: real, b: real, t: real, lo: real, hi: real)
    requires lo <= a <= hi && lo <= b <= hi && 0.0 <= t <= 1.0
    ensures lo <= a * (1.0 - t) + b * t <= hi
  {
    if a <= b {
      OffsetBetween(a, b - a, t, lo, hi);
      MixUp(a, b, t);
    } else {
      OffsetBetween(b, a - b, 1.0 - t, lo, hi);
      MixDown(a, b, t);
    }
  }

  /** The bilinear blend of four values with weights in [0, 1] lies between their bounds. */
  lemma BlendBetween(v00: real, v01: real, v10: real, v11: real, dx: real, dy: real, lo: real, hi: real)
    requires lo <= v00 <= hi && lo <= v01 <= hi && lo <= v10 <= hi && lo <= v11 <= hi
    requires 0.0 <= dx <= 1.0 && 0.0 <= dy <= 1.0
    ensures var top, bottom := v00 * (1.0 - dx) + v01 * dx, v10 * (1.0 - dx) + v11 * dx;
      lo <= top * (1.0 - dy) + bottom * dy <= hi
  {
    MixBetween(v00, v01, dx, lo, hi);
    MixBetween(v10, v11, dx, lo, hi);
    MixBetween(v00 * (1.0 - dx) + v01 * dx, v10 * (1.0 - dx) + v11 * dx, dy, lo, hi);
  }
}
