/**
 * src/utils/interpolation.ts, the older copy of the two resamplers. Its
 * loops are the same statements as src/utils/image/interpolation.ts, so the
 * row steps are shared and each function is proved to return exactly what
 * the current copy returns.
 */
module InterpolationLegacy {
  import opened Common
  import opened Raster
  import Interpolation

  /** scaleImageNearest (older copy): the same buffer as the current one. */
  method ScaleImageNearest(src: seq<byte>, srcWidth: int, srcHeight: int, dstWidth: nat, dstHeight: nat)
    returns (dstData: seq<byte>)
    requires Buffer(src, srcWidth, srcHeight)
    ensures dstData == Interpolation.NearestScaled(src, srcWidth, srcHeight, dstWidth, dstHeight)
  {
    ghost var spec := Interpolation.NearestScaled(src, srcWidth, srcHeight, dstWidth, dstHeight);
    var dst := new byte[dstWidth * dstHeight * 4](_ => 0);
    FilledNone(dst[..], spec);
    if dstWidth == 0 || dstHeight == 0 {
      assert dstWidth * dstHeight == 0;
      return dst[..];
    }
    var xRatio := (srcWidth as real) / (dstWidth as real);
    var yRatio := (srcHeight as real) / (dstHeight as real);
    for y := 0 to dstHeight
      invariant Filled(dst[..], spec, (y * dstWidth) * 4)
    {
      Interpolation.NearestRow(dst, src, srcWidth, srcHeight, dstWidth, dstHeight, xRatio, yRatio, y);
    }
    assert dstHeight * dstWidth == dstWidth * dstHeight;
    FilledAll(dst[..], spec);
    dstData := dst[..];
  }

  /** scaleImageBilinear (older copy): the same buffer as the current one. */
  method ScaleImageBilinear(src: seq<byte>, srcWidth: int, srcHeight: int, dstWidth: nat, dstHeight: nat)
    returns (dstData: seq<byte>)
    requires Buffer(src, srcWidth, srcHeight)
    ensures dstData == Interpolation.BilinearScaled(src, srcWidth, srcHeight, dstWidth, dstHeight)
  {
    ghost var spec := Interpolation.BilinearScaled(src, srcWidth, srcHeight, dstWidth, dstHeight);
    var dst := new byte[dstWidth * dstHeight * 4](_ => 0);
    FilledNone(dst[..], spec);
    if dstWidth == 0 || dstHeight == 0 {
      assert dstWidth * dstHeight == 0;
      return dst[..];
    }
    var xRatio := ((srcWidth - 1) as real) / (dstWidth as real);
    var yRatio := ((srcHeight - 1) as real) / (dstHeight as real);
    for y := 0 to dstHeight
      invariant Filled(dst[..], spec, (y * dstWidth) * 4)
    {
      Interpolation.BilinearRow(dst, src, srcWidth, srcHeight, dstWidth, dstHeight, xRatio, yRatio, y);
    }
    assert dstHeight * dstWidth == dstWidth * dstHeight;
    FilledAll(dst[..], spec);
    dstData := dst[..];
  }
}
