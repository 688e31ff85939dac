/**
 * bilinearInterpolation (src/utils/bilinearInterpolation.ts): bilinear
 * scaling of an ImageData with the step source.width / targetWidth, the
 * next column and row clamped to the image, and the unrounded value stored
 * into the Uint8ClampedArray of a fresh createImageData buffer.
 */
module BilinearLegacy {
  import opened Common
  import opened ImageTypes
  import opened Raster
  import opened NearestNeighborLegacy

  /** (c00*(1-tx) + c10*tx)*(1-ty) + (c01*(1-tx) + c11*tx)*ty, as the source nests it. */
  function Lerp2(c00: real, c10: real, c01: real, c11: real, tx: real, ty: real): real
  {
    (c00 * (1.0 - tx) + c10 * tx) * (1.0 - ty) + (c01 * (1.0 - tx) + c11 * tx) * ty
  }

  /** The unrounded value of channel c of target pixel (x, y), sampled at x * sw/tw, y * sh/th. */
  function LegacyValue(src: seq<byte>, sw: int, sh: int, tw: int, th: int, x: int, y: int, c: nat): real
    requires Buffer(src, sw, sh) && 0 <= x < tw && 0 <= y < th && c < 4
  {
    var gxi, gyi := Cell(x, sw, tw), Cell(y, sh, th);
    var x1, y1 := Next(gxi, sw), Next(gyi, sh);
    Lerp2(At(src, sw, sh, gxi, gyi, c) as real, At(src, sw, sh, x1, gyi, c) as real,
          At(src, sw, sh, gxi, y1, c) as real, At(src, sw, sh, x1, y1, c) as real,
          Frac(x, sw, tw), Frac(y, sh, th))
  }

  /** The byte the Uint8ClampedArray keeps for that value. */
  function LegacyAt(src: seq<byte>, sw: int, sh: int, tw: int, th: int, x: int, y: int, c: nat): byte
    requires Buffer(src, sw, sh) && 0 <= x < tw && 0 <= y < th && c < 4
  {
    ClampedStore(LegacyValue(src, sw, sh, tw, th, x, y, c))
  }

  /** The data of the ImageData bilinearInterpolation returns. */
  function LegacyScaled(src: seq<byte>, sw: int, sh: int, tw: nat, th: nat): (out: seq<byte>)
    requires Buffer(src, sw, sh)
    ensures |out| == tw * th * 4
  {
    seq(tw * th * 4, k requires 0 <= k < tw * th * 4 =>
      SplitIndex(k, tw, th);
      LegacyAt(src, sw, sh, tw, th, (k / 4) % tw, (k / 4) / tw, k % 4))
  }

  /** The ImageData bilinearInterpolation returns, or its error. */
  function Bilinear(source: ImageData, targetWidth: nat, targetHeight: nat): (r: ScaleResult)
    requires ValidImageData(source)
    ensures r.IndexSizeError? <==> targetWidth == 0 || targetHeight == 0
    ensures r.Scaled? ==> r.image.width == targetWidth && r.image.height == targetHeight
                          && ValidImageData(r.image)
  {
    if targetWidth == 0 || targetHeight == 0 then IndexSizeError
    else Scaled(ImageData(LegacyScaled(source.data, source.width, source.height, targetWidth, targetHeight),
                          targetWidth, targetHeight))
  }

  lemma LegacyScaledAt(src: seq<byte>, sw: int, sh: int, tw: nat, th: nat, x: int, y: int, c: nat, p: int)
    requires Buffer(src, sw, sh) && 0 <= x < tw && 0 <= y < th && c < 4 && p == y * tw + x
    ensures 0 <= p && 4 * p + 4 <= tw * th * 4
    ensures LegacyScaled(src, sw, sh, tw, th)[4 * p + c] == LegacyAt(src, sw, sh, tw, th, x, y, c)
  {
    ByteIndex(x, y, tw, th, c);
    ByteIndex(x, y, tw, th, 3);
  }

  /** One step of the channel loop: targetImageData.data[destIndex] = value. */
  method LegacyChannel(data: array<byte>, src: seq<byte>, sw: int, sh: int, tw: nat, th: nat,
                       x: nat, y: nat, gxi: int, gyi: int, tx: real, ty: real, c: nat, ghost p: nat)
    requires Buffer(src, sw, sh) && x < tw && y < th && c < 4 && p == y * tw + x
    requires gxi == Cell(x, sw, tw) && gyi == Cell(y, sh, th)
    requires tx == Frac(x, sw, tw) && ty == Frac(y, sh, th)
    requires Filled(data[..], LegacyScaled(src, sw, sh, tw, th), 4 * p + c)
    modifies data
    ensures Filled(data[..], LegacyScaled(src, sw, sh, tw, th), 4 * p + c + 1)
  {
    LegacyScaledAt(src, sw, sh, tw, th, x, y, c, p);
    var c00 := At(src, sw, sh, gxi, gyi, c);
    var c10 := At(src, sw, sh, Min(gxi + 1, sw - 1), gyi, c);
    var c01 := At(src, sw, sh, gxi, Min(gyi + 1, sh - 1), c);
    var c11 := At(src, sw, sh, Min(gxi + 1, sw - 1), Min(gyi + 1, sh - 1), c);
    var value := Lerp2(c00 as real, c10 as real, c01 as real, c11 as real, tx, ty);
    var destIndex := (y * tw + x) * 4 + c;
    assert destIndex == 4 * p + c;
    ghost var before := data[..];
    data[destIndex] := ClampedStore(value);
    ByteFilled(before, data[..], LegacyScaled(src, sw, sh, tw, th), 4 * p + c);
  }

  /** One target pixel: its cell and weights, then the channel loop. */
  method LegacyPixel(data: array<byte>, src: seq<byte>, sw: int, sh: int, tw: nat, th: nat,
                     scaleX: real, scaleY: real, x: nat, y: nat, ghost p: nat)
    requires Buffer(src, sw, sh) && x < tw && y < th && p == y * tw + x
    requires scaleX == (sw as real) / (tw as real) && scaleY == (sh as real) / (th as real)
    requires Filled(data[..], LegacyScaled(src, sw, sh, tw, th), 4 * p)
    modifies data
    ensures Filled(data[..], LegacyScaled(src, sw, sh, tw, th), 4 * p + 4)
  {
    var gx := (x as real) * scaleX;
    var gy := (y as real) * scaleY;
    var gxi := gx.Floor;
    var gyi := gy.Floor;
    var tx := gx - gxi as real;
    var ty := gy - gyi as real;
    FloorIsCell(x, sw, tw, scaleX);
    FloorIsCell(y, sh, th, scaleY);
    for c := 0 to 4
      invariant Filled(data[..], LegacyScaled(src, sw, sh, tw, th), 4 * p + c)
    {
      LegacyChannel(data, src, sw, sh, tw, th, x, y, gxi, gyi, tx, ty, c, p);
    }
  }

  /** One row of bilinearInterpolation. */
  method LegacyRow(data: array<byte>, src: seq<byte>, sw: int, sh: int, tw: nat, th: nat,
                   scaleX: real, scaleY: real, y: nat)
    requires Buffer(src, sw, sh) && tw >= 1 && y < th
    requires scaleX == (sw as real) / (tw as real) && scaleY == (sh as real) / (th as real)
    requires Filled(data[..], LegacyScaled(src, sw, sh, tw, th), (y * tw) * 4)
    modifies data
    ensures Filled(data[..], LegacyScaled(src, sw, sh, tw, th), ((y + 1) * tw) * 4)
  {
    ghost var p: nat := y * tw;
    assert (y * tw) * 4 == 4 * p;
    for x := 0 to tw
      invariant p == y * tw + x
      invariant Filled(data[..], LegacyScaled(src, sw, sh, tw, th), 4 * p)
    {
      LegacyPixel(data, src, sw, sh, tw, th, scaleX, scaleY, x, y, p);
      p := p + 1;
    }
    assert y * tw + tw == (y + 1) * tw;
    assert 4 * p == ((y + 1) * tw) * 4;
  }

  /** bilinearInterpolation. */
  method BilinearInterpolation(source: ImageData, targetWidth: nat, targetHeight: nat) returns (r: ScaleResult)
    requires ValidImageData(source)
    ensures r == Bilinear(source, targetWidth, targetHeight)
  {
    if targetWidth == 0 || targetHeight == 0 {
      return IndexSizeError;
    }
    ghost var spec := LegacyScaled(source.data, source.width, source.height, targetWidth, targetHeight);
    var data := new byte[targetWidth * targetHeight * 4](_ => 0);
    FilledNone(data[..], spec);
    var scaleX := (source.width as real) / (targetWidth as real);
    var scaleY := (source.height as real) / (targetHeight as real);
    for y := 0 to targetHeight
      invariant Filled(data[..], spec, (y * targetWidth) * 4)
    {
      LegacyRow(data, source.data, source.width, source.height, targetWidth, targetHeight, scaleX, scaleY, y);
    }
    assert targetHeight * targetWidth == targetWidth * targetHeight;
    FilledAll(data[..], spec);
    r := Scaled(ImageData(data[..], targetWidth, targetHeight));
  }

  // ---------------------------------------------------------------------
  // Properties

  lemma Lerp2AtCorner(c00: real, c10: real, c01: real, c11: real)
    ensures Lerp2(c00, c10, c01, c11, 0.0, 0.0) == c00
  {
  }

  /** At the same size both weights are 0, so each target byte is the source byte at the same place. */
  lemma LegacySameSizeAt(src: seq<byte>, w: int, h: int, x: int, y: int, c: nat)
    requires Buffer(src, w, h) && 0 <= x < w && 0 <= y < h && c < 4
    ensures LegacyAt(src, w, h, w, h, x, y, c) == At(src, w, h, x, y, c)
  {
    SameSizeCell(x, w);
    SameSizeCell(y, h);
    var v := At(src, w, h, x, y, c);
    Lerp2AtCorner(v as real, At(src, w, h, Next(x, w), y, c) as real,
                  At(src, w, h, x, Next(y, h), c) as real, At(src, w, h, Next(x, w), Next(y, h), c) as real);
    ClampedStoreOfInt(v);
  }

  /** Scaling an image to its own size returns it unchanged. */
  lemma {:induction false} LegacySameSizeIsIdentity(source: ImageData)
    requires ValidImageData(source)
    ensures Bilinear(source, source.width, source.height) == Scaled(source)
  {
    var src, w, h := source.data, source.width, source.height;
    var out := LegacyScaled(src, w, h, w, h);
    forall k | 0 <= k < |src|
      ensures out[k] == src[k]
    {
      SplitIndex(k, w, h);
      LegacySameSizeAt(src, w, h, (k / 4) % w, (k / 4) / w, k % 4);
    }
  }

  lemma Lerp2Bounds(c00: real, c10: real, c01: real, c11: real, tx: real, ty: real, lo: real, hi: real)
    requires lo <= c00 <= hi && lo <= c10 <= hi && lo <= c01 <= hi && lo <= c11 <= hi
    requires 0.0 <= tx <= 1.0 && 0.0 <= ty <= 1.0
    ensures lo <= Lerp2(c00, c10, c01, c11, tx, ty) <= hi
  {
    BlendBetween(c00, c10, c01, c11, tx, ty, lo, hi);
  }

  /**
   * Each stored byte lies between the smallest and the largest of its four
   * neighbours: source pixels (gxi, gyi), (x1, gyi), (gxi, y1), (x1, y1), with
   * gxi = floor(x * sw/tw), gyi = floor(y * sh/th) and x1, y1 the next column
   * and row clamped to the image.
   */
  lemma LegacyBetween(src: seq<byte>, sw: int, sh: int, tw: nat, th: nat, x: int, y: int, c: nat)
    requires Buffer(src, sw, sh) && 0 <= x < tw && 0 <= y < th && c < 4
    ensures var gxi, gyi := (x * sw) / tw, (y * sh) / th;
      var x1, y1 := Min(gxi + 1, sw - 1), Min(gyi + 1, sh - 1);
      0 <= gxi <= x1 < sw && 0 <= gyi <= y1 < sh
      && var c00, c10, c01, c11 := At(src, sw, sh, gxi, gyi, c), At(src, sw, sh, x1, gyi, c),
                                   At(src, sw, sh, gxi, y1, c), At(src, sw, sh, x1, y1, c);
      Lo4(c00, c10, c01, c11) <= LegacyAt(src, sw, sh, tw, th, x, y, c) <= Hi4(c00, c10, c01, c11)
  {
    var gxi, gyi := Cell(x, sw, tw), Cell(y, sh, th);
    var x1, y1 := Next(gxi, sw), Next(gyi, sh);
    var c00, c10, c01, c11 := At(src, sw, sh, gxi, gyi, c), At(src, sw, sh, x1, gyi, c),
                              At(src, sw, sh, gxi, y1, c), At(src, sw, sh, x1, y1, c);
    var lo, hi := Lo4(c00, c10, c01, c11), Hi4(c00, c10, c01, c11);
    Lerp2Bounds(c00 as real, c10 as real, c01 as real, c11 as real,
                Frac(x, sw, tw), Frac(y, sh, th), lo as real, hi as real);
    ClampedStoreBetween(LegacyValue(src, sw, sh, tw, th, x, y, c), lo, hi);
  }

  /** An image whose every pixel has colour col scales to an image of that colour. */
  lemma {:induction false} LegacyOfConstant(src: seq<byte>, sw: int, sh: int, tw: nat, th: nat, col: seq<byte>)
    requires Buffer(src, sw, sh) && |col| == 4
    requires forall k :: 0 <= k < |src| ==> src[k] == col[k % 4]
    ensures forall k :: 0 <= k < tw * th * 4 ==> LegacyScaled(src, sw, sh, tw, th)[k] == col[k % 4]
  {
    forall k | 0 <= k < tw * th * 4
      ensures LegacyScaled(src, sw, sh, tw, th)[k] == col[k % 4]
    {
      SplitIndex(k, tw, th);
      var x, y := (k / 4) % tw, (k / 4) / tw;
      LegacyScaledAt(src, sw, sh, tw, th, x, y, k % 4, y * tw + x);
      LegacyConstantAt(src, sw, sh, tw, th, col, x, y, k % 4);
    }
  }

  /** One byte of the scaling of an image of one colour is that colour's channel. */
  lemma LegacyConstantAt(src: seq<byte>, sw: int, sh: int, tw: nat, th: nat, col: seq<byte>, x: int, y: int, c: nat)
    requires Buffer(src, sw, sh) && |col| == 4 && 0 <= x < tw && 0 <= y < th && c < 4
    requires forall k :: 0 <= k < |src| ==> src[k] == col[k % 4]
    ensures LegacyAt(src, sw, sh, tw, th, x, y, c) == col[c]
  {
    var gxi, gyi := Cell(x, sw, tw), Cell(y, sh, th);
    var x1, y1 := Next(gxi, sw), Next(gyi, sh);
    ByteIndex(gxi, gyi, sw, sh, c);
    ByteIndex(x1, gyi, sw, sh, c);
    ByteIndex(gxi, y1, sw, sh, c);
    ByteIndex(x1, y1, sw, sh, c);
    LegacyBetween(src, sw, sh, tw, th, x, y, c);
  }
}
