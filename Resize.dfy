/**
 * resizeRaw (src/utils/image/resize.ts): checks the target size, then
 * scales a copy of the buffer with the nearest-neighbour or the bilinear
 * resampler. Buffers are values here, so the caller's buffer is never
 * touched and the copy needs no modelling.
 */
module Resize {
  import opened Common
  import opened Raster
  import opened Interpolation

  /** The scaled buffer, or the Error resizeRaw throws for an invalid target size. */
  datatype ResizeResult = Resized(data: seq<byte>) | InvalidSize(dstW: int, dstH: int)

  /** resizeRaw: `'nearest'` picks the nearest-neighbour scaler, any other method name the bilinear one. */
  function ResizeRaw(raw: seq<byte>, srcW: int, srcH: int, dstW: int, dstH: int, interp: string): (r: ResizeResult)
    requires Buffer(raw, srcW, srcH)
    ensures r.InvalidSize? <==> dstW <= 0 || dstH <= 0
    ensures r.InvalidSize? ==> r == InvalidSize(dstW, dstH)
    ensures r.Resized? ==> |r.data| == dstW * dstH * 4
  {
    if dstW <= 0 || dstH <= 0 then InvalidSize(dstW, dstH)
    else if interp == "nearest" then Resized(NearestScaled(raw, srcW, srcH, dstW, dstH))
    else Resized(BilinearScaled(raw, srcW, srcH, dstW, dstH))
  }

  /** Nearest-neighbour resizing to the buffer's own size returns it unchanged. */
  lemma ResizeNearestSameSize(raw: seq<byte>, w: int, h: int)
    requires Buffer(raw, w, h)
    ensures ResizeRaw(raw, w, h, w, h, "nearest") == Resized(raw)
  {
    NearestSameSizeIsIdentity(raw, w, h);
  }

  /** Bilinear resizing to the same size is not the identity (the step is (srcW-1)/dstW). */
  lemma ResizeBilinearSameSizeDiffers()
    ensures var raw := [0, 0, 0, 0, 255, 255, 255, 255];
      ResizeRaw(raw, 2, 1, 2, 1, "bilinear") != Resized(raw)
  {
    SameSizeBilinearIsNotIdentity();
  }

  /** Whichever method is chosen, an image of one colour resizes to an image of that colour. */
  lemma ResizeOfConstant(raw: seq<byte>, srcW: int, srcH: int, dstW: int, dstH: int, interp: string, col: seq<byte>)
    requires Buffer(raw, srcW, srcH) && |col| == 4 && dstW > 0 && dstH > 0
    requires forall k :: 0 <= k < |raw| ==> raw[k] == col[k % 4]
    ensures var r := ResizeRaw(raw, srcW, srcH, dstW, dstH, interp);
      r.Resized? && forall k :: 0 <= k < |r.data| ==> r.data[k] == col[k % 4]
  {
    if interp == "nearest" {
      NearestOfConstant(raw, srcW, srcH, dstW, dstH, col);
    } else {
      BilinearOfConstant(raw, srcW, srcH, dstW, dstH, col);
    }
  }
}
