/**
 * The records the pixel engine reads: an image layer, as the editor keeps
 * it, and the browser's ImageData (a flat RGBA buffer with its size).
 */
module ImageTypes {
  import opened Common

  datatype Format = Gb7 | Png | Jpeg

  /**
   * The fields of an image layer that the engine reads. An optional buffer is
   * an Option; a typed array that is present is truthy even when empty.
   * `rendered` canvases (colour fill, original <img>) are not stored here.
   */
  datatype Layer = Layer(
    width: nat,
    height: nat,
    format: Format,
    isColorLayer: bool,        // type === 'color'
    color: string,             // colour string; the empty string is falsy
    pixels: Option<seq<byte>>, // GB7 bytes: bit 7 mask, bits 6..0 luma
    imageData: Option<seq<byte>>, // decoded PNG/JPEG RGBA bytes
    hasOriginal: bool,         // an <img> element is attached
    hasAlpha: bool,            // GB7 header flag bit 0
    alphaHidden: bool,
    alphaRemoved: bool)

  /** A decoded raster's buffer has four bytes per pixel. */
  predicate WellFormed(layer: Layer)
  {
    layer.imageData.Some? ==> |layer.imageData.value| == layer.width * layer.height * 4
  }

  /** The browser's ImageData: width and height at least 1, data of width*height*4 bytes. */
  datatype ImageData = ImageData(data: seq<byte>, width: nat, height: nat)

  predicate ValidImageData(img: ImageData)
  {
    img.width >= 1 && img.height >= 1 && |img.data| == img.width * img.height * 4
  }
}
