/**
 * Encoding of a layer as GB7: the layer is normalised to RGBA (colour mode,
 * honouring forceOpaque), each pixel becomes one byte (bit 7 set when alpha
 * >= 128, bits 6..0 the BT.709 luma quantised to 7 bits), and a 12-byte
 * header is written through DataView setters. The header flag is 1 exactly
 * when some pixel is transparent.
 */
module Gb7Encode {
  import opened Common
  import opened ImageTypes
  import opened Rgba
  import opened Gb7Parse

  datatype EncodeOpts = EncodeOpts(forceOpaque: bool)

  /** gray8to7: Math.max(0, Math.min(127, Math.round(g8 * 127 / 255))). */
  function Gray8To7(g8: int): (y7: int)
    ensures 0 <= y7 <= 127
  {
    ClampRound((g8 * 127) as real / 255.0, 127)
  }

  /** luma709: Math.round(0.2126 R + 0.7152 G + 0.0722 B), ITU-R BT.709 weights. */
  function Luma709(r: int, g: int, b: int): (y: int)
    ensures 0 <= r <= 255 && 0 <= g <= 255 && 0 <= b <= 255 ==> 0 <= y <= 255
    ensures r == g == b ==> y == r
  {
    var v := 0.2126 * r as real + 0.7152 * g as real + 0.0722 * b as real;
    assert r == g == b ==> v == r as real;
    RoundOfInt(r);
    if 0 <= r <= 255 && 0 <= g <= 255 && 0 <= b <= 255 then
      RoundBetween(v, 0, 255);
      Round(v)
    else
      Round(v)
  }

  /** The mask bit: 0x80 when alpha >= 128. */
  function MaskBit(a: byte): int
  {
    if a >= 128 then 0x80 else 0x00
  }

  /** One output byte: (abit | (y7 & 0x7f)); the two bit fields are disjoint, so | is +. */
  function PixelByte(r: byte, g: byte, b: byte, a: byte): (v: byte)
    ensures (v >= 0x80) <==> (a >= 128)
    ensures v % 0x80 == Gray8To7(Luma709(r, g, b))
  {
    MaskBit(a) + Gray8To7(Luma709(r, g, b))
  }

  function AlphaOf(raw: seq<byte>, p: nat): byte
    requires |raw| % 4 == 0 && p < |raw| / 4
  {
    raw[4 * p + 3]
  }

  /** The pixel bytes: one per RGBA quadruple. */
  function EncodedPixels(raw: seq<byte>): (px: seq<byte>)
    requires |raw| % 4 == 0
    ensures |px| == |raw| / 4
  {
    seq(|raw| / 4, p requires 0 <= p < |raw| / 4 =>
      PixelByte(raw[4 * p], raw[4 * p + 1], raw[4 * p + 2], raw[4 * p + 3]))
  }

  /** Some pixel has alpha below 128. */
  predicate HasTransparent(raw: seq<byte>)
    requires |raw| % 4 == 0
  {
    exists p :: 0 <= p < |raw| / 4 && AlphaOf(raw, p) < 128
  }

  /** The two bytes setUint16 writes: ToUint16 (modulo 65536), high byte first. */
  function BE16(v: int): (s: seq<byte>)
    ensures |s| == 2 && s[0] as int * 256 + s[1] as int == v % 0x1_0000
  {
    var t := v % 0x1_0000;
    [t / 256, t % 256]
  }

  /** The 12-byte header. */
  function Header(width: int, height: int, flag: byte): (h: seq<byte>)
    ensures |h| == HeaderSize
  {
    [0x47, 0x42, 0x37, 0x1D, Version, flag] + BE16(width) + BE16(height) + BE16(0)
  }

  /** The whole file encodeGB7 returns for a normalised buffer of the given size. */
  function Gb7File(raw: seq<byte>, width: int, height: int): (f: seq<byte>)
    requires |raw| % 4 == 0
    ensures |f| == HeaderSize + |raw| / 4
  {
    Header(width, height, if HasTransparent(raw) then 1 else 0) + EncodedPixels(raw)
  }

  /** DataView.setUint16(off, v, false). */
  method SetUint16(dv: array<byte>, off: nat, v: int)
    requires off + 2 <= dv.Length
    modifies dv
    ensures dv[..] == old(dv[..])[off := BE16(v)[0]][off + 1 := BE16(v)[1]]
  {
    var t := v % 0x1_0000;
    dv[off] := t / 256;
    dv[off + 1] := t % 256;
  }

  /** DataView.setUint32(off, v), big-endian by default. */
  method SetUint32(dv: array<byte>, off: nat, v: int)
    requires off + 4 <= dv.Length
    modifies dv
    ensures var t := v % 0x1_0000_0000;
      dv[..] == old(dv[..])[off := t / 0x100_0000][off + 1 := (t / 0x1_0000) % 256]
                           [off + 2 := (t / 256) % 256][off + 3 := t % 256]
  {
    var t := v % 0x1_0000_0000;
    dv[off] := t / 0x100_0000;
    dv[off + 1] := (t / 0x1_0000) % 256;
    dv[off + 2] := (t / 256) % 256;
    dv[off + 3] := t % 256;
  }

  /** The pixel loop of encodeGB7, with its two flags. */
  method EncodePixels(raw: seq<byte>) returns (outPixels: seq<byte>, hasTransparent: bool, hasOpaque: bool)
    requires |raw| % 4 == 0
    ensures outPixels == EncodedPixels(raw)
    ensures hasTransparent == HasTransparent(raw)
    ensures hasOpaque <==> exists p :: 0 <= p < |raw| / 4 && AlphaOf(raw, p) >= 128
  {
    var out := new byte[|raw| / 4](_ => 0);
    hasTransparent, hasOpaque := false, false;
    var i, p := 0, 0;
    while i < |raw|
      invariant i == 4 * p && 0 <= i <= |raw|
      invariant forall q :: 0 <= q < p ==> out[q] == EncodedPixels(raw)[q]
      invariant hasTransparent <==> exists q :: 0 <= q < p && AlphaOf(raw, q) < 128
      invariant hasOpaque <==> exists q :: 0 <= q < p && AlphaOf(raw, q) >= 128
    {
      var r, g, b, a := raw[i], raw[i + 1], raw[i + 2], raw[i + 3];
      var g8 := Luma709(r, g, b);
      var y7 := Gray8To7(g8);
      var abit := if a >= 128 then 0x80 else 0x00;
      if abit != 0 {
        hasOpaque := true;
      } else {
        hasTransparent := true;
      }
      assert AlphaOf(raw, p) == a;
      assert abit + y7 == PixelByte(r, g, b, a) == EncodedPixels(raw)[p];
      out[p] := abit + y7;
      i, p := i + 4, p + 1;
    }
    outPixels := out[..];
  }

  /** The four bytes setUint32 writes for the signature are 'G', 'B', '7', 0x1D. */
  lemma SignatureBytes()
    ensures var t := Signature % 0x1_0000_0000;
      t / 0x100_0000 == 0x47 && (t / 0x1_0000) % 256 == 0x42 && (t / 256) % 256 == 0x37 && t % 256 == 0x1D
  {
  }

  /** The header of encodeGB7, written field by field through a DataView. */
  method WriteHeader(width: int, height: int, flag: byte) returns (header: seq<byte>)
    ensures header == Header(width, height, flag)
  {
    var dv := new byte[12](_ => 0);
    SignatureBytes();
    SetUint32(dv, 0, Signature);
    dv[4] := Version;
    dv[5] := flag;
    SetUint16(dv, 6, width);
    SetUint16(dv, 8, height);
    SetUint16(dv, 10, 0);
    header := dv[..];
  }

  /** encodeGB7. `rendered` is what a canvas yields for a colour layer or an <img> (see Rgba). */
  method EncodeGb7(img: Layer, opts: EncodeOpts, rendered: seq<byte>) returns (buffer: seq<byte>)
    requires WellFormed(img) && |rendered| == img.width * img.height * 4
    ensures buffer == Gb7File(Normalized(img, RgbaOpts(Color, opts.forceOpaque), rendered).raw, img.width, img.height)
  {
    var rgba := ToRgba(img, RgbaOpts(Color, opts.forceOpaque), rendered);
    var raw, width, height := rgba.raw, rgba.width, rgba.height;
    var outPixels, hasTransparent, hasOpaque := EncodePixels(raw);
    var hasMask := hasTransparent || (if !hasTransparent && !hasOpaque then false else false);
    var flag := if hasMask then 0x01 else 0x00;
    var header := WriteHeader(width, height, flag);
    buffer := header + outPixels;
  }

  // ---------------------------------------------------------------------
  // Properties

  /** Header layout: signature, version 1, flag 0/1, big-endian width and height (mod 65536), reserved 0. */
  lemma HeaderLayout(raw: seq<byte>, width: nat, height: nat)
    requires |raw| % 4 == 0
    ensures var f := Gb7File(raw, width, height);
      f[0] == 0x47 && f[1] == 0x42 && f[2] == 0x37 && f[3] == 0x1D && f[4] == 1
      && (f[5] == 1 <==> HasTransparent(raw)) && (f[5] == 0 <==> !HasTransparent(raw))
      && f[6] as int * 256 + f[7] as int == width % 0x1_0000
      && f[8] as int * 256 + f[9] as int == height % 0x1_0000
      && f[10] == 0 && f[11] == 0
      && f[HeaderSize..] == EncodedPixels(raw)
  {
  }

  /** Decoding an encoded file gives back the (16-bit) size, the flag and exactly the pixel bytes. */
  lemma {:induction false} DecodeEncoded(raw: seq<byte>, width: nat, height: nat)
    requires |raw| % 4 == 0
    ensures ParseGb7(Gb7File(raw, width, height))
         == Ok(Gb7Image(width % 0x1_0000, height % 0x1_0000, HasTransparent(raw), EncodedPixels(raw)))
  {
    var f := Gb7File(raw, width, height);
    HeaderLayout(raw, width, height);
    assert U32BE(f, 0) == Signature;
    assert U16BE(f, 6) == width % 0x1_0000;
    assert U16BE(f, 8) == height % 0x1_0000;
    assert Tail(f) == EncodedPixels(raw);
  }

  /** When the size fits the 16-bit header fields, decoding gives back exactly the size, the flag and the pixels. */
  lemma EncodeDecodeRoundTrip(raw: seq<byte>, width: nat, height: nat)
    requires |raw| % 4 == 0 && width < 0x1_0000 && height < 0x1_0000
    ensures ParseGb7(Gb7File(raw, width, height)) == Ok(Gb7Image(width, height, HasTransparent(raw), EncodedPixels(raw)))
  {
    DecodeEncoded(raw, width, height);
  }

  /** gray8to7 in integers: round-half-up of g8*127/255. */
  lemma Gray8To7Integer(g8: int)
    requires 0 <= g8 <= 255
    ensures Gray8To7(g8) == (254 * g8 + 255) / 510
  {
    var v := (g8 * 127) as real / 255.0;
    assert v + 0.5 == ((254 * g8 + 255) as real) / 510.0;
    FloorOfQuotient(254 * g8 + 255, 510);
    assert 0.0 <= v <= 127.0;
  }

  /** Widening 7-bit luma to 8 bits and quantising it back returns the same luma. */
  lemma {:induction false} LumaRoundTrip(y7: int)
    requires 0 <= y7 <= 127
    ensures var g8 := Gray7To8(y7); Gray8To7(Luma709(g8, g8, g8)) == y7
  {
    var g8 := Gray7To8(y7);
    assert 255 * y7 == 127 * g8 + (255 * y7) % 127;
    Gray8To7Integer(g8);
    assert 254 * g8 + 255 == 510 * y7 + (255 - 2 * ((255 * y7) % 127));
  }

  /** The byte encoded from the RGBA pixel that GB7 byte b becomes in colour mode. */
  lemma Gb7ByteReencode(b: byte, hasMask: bool, fa: bool)
    ensures var g := Gray7To8(b % 0x80);
      var v := PixelByte(g, g, g, Gb7Channel(b, 3, hasMask, Color, fa));
      v % 0x80 == b % 0x80 && (hasMask && !fa ==> v == b)
  {
    LumaRoundTrip(b % 0x80);
  }

  /** One pixel of a re-encoded GB7 buffer: the luma survives, and the mask bit too when alpha is not forced. */
  lemma Gb7PixelReencode(pixels: seq<byte>, n: nat, hasMask: bool, fa: bool, p: nat)
    requires |pixels| == n && p < n
    ensures var px := EncodedPixels(Gb7Raw(pixels, n, hasMask, Color, fa));
      px[p] % 0x80 == pixels[p] % 0x80 && (hasMask && !fa ==> px[p] == pixels[p])
  {
    var raw := Gb7Raw(pixels, n, hasMask, Color, fa);
    var b := pixels[p];
    var g := Gray7To8(b % 0x80);
    Gb7RawAt(pixels, n, hasMask, Color, fa, p, 0);
    Gb7RawAt(pixels, n, hasMask, Color, fa, p, 1);
    Gb7RawAt(pixels, n, hasMask, Color, fa, p, 2);
    Gb7RawAt(pixels, n, hasMask, Color, fa, p, 3);
    assert 4 * p == p * 4;
    assert EncodedPixels(raw)[p] == PixelByte(g, g, g, Gb7Channel(b, 3, hasMask, Color, fa));
    Gb7ByteReencode(b, hasMask, fa);
  }

  /**
   * Re-encoding a GB7 layer keeps every luma; it keeps the whole byte when the
   * layer has a mask and neither hides, removes nor forces alpha.
   */
  lemma Gb7Reencode(img: Layer, opts: EncodeOpts, rendered: seq<byte>)
    requires WellFormed(img) && |rendered| == img.width * img.height * 4
    requires IsGb7Branch(img) && |img.pixels.value| == img.width * img.height
    ensures var px := EncodedPixels(Normalized(img, RgbaOpts(Color, opts.forceOpaque), rendered).raw);
      |px| == |img.pixels.value|
      && (forall p :: 0 <= p < |px| ==> px[p] % 0x80 == img.pixels.value[p] % 0x80)
      && (img.hasAlpha && !img.alphaHidden && !img.alphaRemoved && !opts.forceOpaque ==> px == img.pixels.value)
  {
    var n := img.width * img.height;
    var pixels := img.pixels.value;
    var fa := img.alphaHidden || img.alphaRemoved || opts.forceOpaque;
    BranchOrder(img, RgbaOpts(Color, opts.forceOpaque), rendered);
    var px := EncodedPixels(Gb7Raw(pixels, n, img.hasAlpha, Color, fa));
    forall p | 0 <= p < n
      ensures px[p] % 0x80 == pixels[p] % 0x80
      ensures img.hasAlpha && !fa ==> px[p] == pixels[p]
    {
      Gb7PixelReencode(pixels, n, img.hasAlpha, fa, p);
    }
  }

  /**
   * With forceOpaque every mask bit is set and the flag is 0, for a GB7 layer
   * with a byte for every pixel, a raster or an original image. (A colour
   * layer keeps the canvas alpha, and missing GB7 bytes stay transparent.)
   */
  lemma {:induction false} ForceOpaqueEncoding(img: Layer, rendered: seq<byte>)
    requires WellFormed(img) && |rendered| == img.width * img.height * 4
    requires (IsGb7Branch(img) && |img.pixels.value| >= img.width * img.height)
             || IsRasterBranch(img) || IsOriginalBranch(img)
    ensures var raw := Normalized(img, RgbaOpts(Color, true), rendered).raw;
      !HasTransparent(raw)
      && (forall p :: 0 <= p < |raw| / 4 ==> EncodedPixels(raw)[p] >= 0x80)
      && Gb7File(raw, img.width, img.height)[5] == 0
  {
    var n := img.width * img.height;
    var raw := Normalized(img, RgbaOpts(Color, true), rendered).raw;
    BranchOrder(img, RgbaOpts(Color, true), rendered);
    if IsGb7Branch(img) {
      assert raw == Gb7Raw(img.pixels.value, n, img.hasAlpha, Color, true);
      forall p | 0 <= p < n
        ensures AlphaOf(raw, p) == 255
      {
        Gb7RawAt(img.pixels.value, n, img.hasAlpha, Color, true, p, 3);
      }
    } else {
      var src := if IsRasterBranch(img) then img.imageData.value else rendered;
      assert raw == WithOpaqueAlpha(src);
      forall p | 0 <= p < n
        ensures AlphaOf(raw, p) == 255
      {
        ChannelIndex(p, 3);
      }
    }
    OpaqueEncoding(raw, img.width, img.height);
  }

  /** A buffer whose every alpha is 255 has no transparent pixel, every mask bit set and flag 0. */
  lemma OpaqueEncoding(raw: seq<byte>, width: int, height: int)
    requires |raw| % 4 == 0
    requires forall p :: 0 <= p < |raw| / 4 ==> AlphaOf(raw, p) == 255
    ensures !HasTransparent(raw)
    ensures forall p :: 0 <= p < |raw| / 4 ==> EncodedPixels(raw)[p] >= 0x80
    ensures Gb7File(raw, width, height)[5] == 0
  {
    forall p | 0 <= p < |raw| / 4
      ensures EncodedPixels(raw)[p] >= 0x80
    {
      assert raw[4 * p + 3] == AlphaOf(raw, p);
    }
  }

  /** The layer parseImage builds from a decoded GB7 file. */
  function LayerOf(g: Gb7Image): Layer
  {
    Layer(g.width, g.height, Gb7, false, "", Some(g.pixels), None, false, g.hasMask, false, false)
  }

  /**
   * A 2x2 file with the mask flag and bytes 00 7F 80 FF decodes to lumas
   * 0, 127, 0, 127 with masks 0, 0, 1, 1, and re-encoding it sets the flag again.
   */
  lemma DecodeReencodeScenario(rendered: seq<byte>)
    requires |rendered| == 16
    ensures var file := [0x47, 0x42, 0x37, 0x1D, 1, 1, 0, 2, 0, 2, 0, 0, 0x00, 0x7F, 0x80, 0xFF];
      var r := ParseGb7(file);
      r.Ok? && r.value.width == 2 && r.value.height == 2 && r.value.hasMask
      && (forall p :: 0 <= p < 4 ==> r.value.pixels[p] % 0x80 == [0, 127, 0, 127][p])
      && (forall p :: 0 <= p < 4 ==> r.value.pixels[p] / 0x80 == [0, 0, 1, 1][p])
      && Gb7File(Normalized(LayerOf(r.value), RgbaOpts(Color, false), rendered).raw, 2, 2)[5] == 1
  {
    var file: seq<byte> := [0x47, 0x42, 0x37, 0x1D, 1, 1, 0, 2, 0, 2, 0, 0, 0x00, 0x7F, 0x80, 0xFF];
    var g := ParseGb7(file).value;
    assert U32BE(file, 0) == Signature;
    assert g.pixels == [0x00, 0x7F, 0x80, 0xFF];
    var img := LayerOf(g);
    var raw := Normalized(img, RgbaOpts(Color, false), rendered).raw;
    Gb7RawAt(g.pixels, 4, true, Color, false, 0, 3);
    assert AlphaOf(raw, 0) == 0;
  }
}
