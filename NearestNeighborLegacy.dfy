/**
 * nearestNeighborInterpolation (src/utils/nearestNeighborInterpolation.ts):
 * nearest-neighbour scaling of an ImageData into a new ImageData taken from
 * createImageData, which is zero-filled and refuses a zero width or height.
 */
module NearestNeighborLegacy {
  import opened Common
  import opened ImageTypes
  import opened Raster
  import Interpolation

  /** A scaled image, or the IndexSizeError createImageData throws for a zero size. */
  datatype ScaleResult = Scaled(image: ImageData) | IndexSizeError

  /** The ImageData nearestNeighborInterpolation returns, or its error. */
  function NearestNeighbor(source: ImageData, targetWidth: nat, targetHeight: nat): (r: ScaleResult)
    requires ValidImageData(source)
    ensures r.IndexSizeError? <==> targetWidth == 0 || targetHeight == 0
    ensures r.Scaled? ==> r.image.width == targetWidth && r.image.height == targetHeight
                          && ValidImageData(r.image)
  {
    if targetWidth == 0 || targetHeight == 0 then IndexSizeError
    else Scaled(ImageData(Interpolation.NearestScaled(source.data, source.width, source.height, targetWidth, targetHeight),
                          targetWidth, targetHeight))
  }

  /** nearestNeighborInterpolation: the nested y/x loops with one assignment per channel. */
  method NearestNeighborInterpolation(source: ImageData, targetWidth: nat, targetHeight: nat) returns (r: ScaleResult)
    requires ValidImageData(source)
    ensures r == NearestNeighbor(source, targetWidth, targetHeight)
  {
    if targetWidth == 0 || targetHeight == 0 {
      return IndexSizeError;
    }
    ghost var spec := Interpolation.NearestScaled(source.data, source.width, source.height, targetWidth, targetHeight);
    var data := new byte[targetWidth * targetHeight * 4](_ => 0);
    FilledNone(data[..], spec);
    var scaleX := (source.width as real) / (targetWidth as real);
    var scaleY := (source.height as real) / (targetHeight as real);
    for y := 0 to targetHeight
      invariant Filled(data[..], spec, (y * targetWidth) * 4)
    {
      Interpolation.NearestRow(data, source.data, source.width, source.height, targetWidth, targetHeight, scaleX, scaleY, y);
    }
    assert targetHeight * targetWidth == targetWidth * targetHeight;
    FilledAll(data[..], spec);
    r := Scaled(ImageData(data[..], targetWidth, targetHeight));
  }

  /** Scaling an image to its own size returns it unchanged. */
  lemma NearestNeighborSameSize(source: ImageData)
    requires ValidImageData(source)
    ensures NearestNeighbor(source, source.width, source.height) == Scaled(source)
  {
    Interpolation.NearestSameSizeIsIdentity(source.data, source.width, source.height);
  }
}
