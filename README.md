# GB7 pixel engine — a verified Dafny model

This project models the pixel-processing library of a small browser image
editor (`src/utils` of the repository). The library works on flat byte
buffers:

- **GB7 codec.** GB7 is a grey-scale raster format with a 12-byte big-endian header. The header holds the signature `47 42 37 1D`, version 1, a mask flag, and 16-bit width and height. Each pixel is one byte: bit 7 is a 1-bit mask and bits 6..0 are a 7-bit luma. The luma comes from the ITU-R BT.709 weights (0.2126, 0.7152, 0.0722).
- **RGBA normaliser `toRGBA`.** It turns a layer (GB7 bytes, a decoded raster, a colour layer or an original image) into width·height·4 RGBA bytes, in colour or alpha-only mode, with the force-opaque rule.
- **Curve engine.**
  - `buildLUT` builds a piecewise-linear look-up table through two control points.
  - `applyCurves` applies per-channel tables to RGBA.
  - `applyCurvesGB7` applies a luma table and one of four mask rules to GB7 bytes.
  - The RGBA and GB7 histograms.
  - The `clamp255`/`clamp127` helpers.
- **3×3 convolution.** Clamp-to-edge sampling, a default divisor, bias, and a truncating clamp. One channel is filtered at a time, and the RGB and alpha filters are built from that.
- **Resamplers.** Nearest-neighbour and bilinear scaling of RGBA buffers, as `resizeRaw` dispatches them. Legacy copies are modelled too: a duplicate of the two resamplers, and the older ImageData-based `nearestNeighborInterpolation` and `bilinearInterpolation`.

Each source loop is a Dafny `method` over a freshly allocated array. It is
proved equal to a specification function on sequences, and the properties
the code promises are lemmas about those functions. Pure code (header
parsing, clamps, dispatch) is functions with contracts.

JavaScript numbers that can be fractional are exact `real`s: curve points,
kernel coefficients, interpolation weights and the BT.709 sum. `Math.round`
is `Round(v) = floor(v + 0.5)`, which rounds halves toward +∞ exactly as
JavaScript does. Bytes are `int`s in `[0, 256)`, and bit operations are
written as `% 128`, `/ 128` and `>= 128`.

Layout, one module per file:

- `Common`: bytes, `Option`, rounding, index arithmetic.
- `Raster`: RGBA buffer geometry and sampling cells.
- `ImageTypes`: layer and ImageData records.
- `Gb7Parse`, `Gb7ParseLegacy`, `Gb7Encode`.
- `Rgba`.
- `CurvesTypes`, `BuildLut`, `ApplyCurves`, `Histogram`.
- `Convolution`.
- `Interpolation`, `InterpolationLegacy`, `NearestNeighborLegacy`, `BilinearLegacy`, `Resize`.

## Model

| member | source | states |
|---|---|---|
| Common.Round | src/utils/image/interpolation.ts:96 | Math.round on an exact real: the result is within half a unit of the value, a half rounding up |
| Common.ClampRound | src/types/curves.ts:15 | the result lies in [0, hi], and equals Math.round of the value when the value is already in range |
| Common.ClampedStore | src/utils/bilinearInterpolation.ts:41 | the byte a Uint8ClampedArray keeps: 0 at or below 0, 255 at or above 255, otherwise within half a unit of the value, and an exact half between two bytes goes to the even one |
| Gb7Parse.U16BE | src/utils/parse/parseGB7.ts:46-47 | a big-endian 16-bit read is below 65536 |
| Gb7Parse.U32BE | src/utils/parse/parseGB7.ts:36 | a big-endian 32-bit read is below 2^32 |
| Gb7Parse.Tail | src/utils/parse/parseGB7.ts:48 | `slice(12)` is the bytes from offset 12 on, and is empty for a buffer of at most 12 bytes |
| Gb7Parse.ParseGb7 | src/utils/parse/parseGB7.ts:31-51 | parsing succeeds iff there are at least 10 bytes, the signature matches and the version byte is 1. On success: width and height are `b[6]*256+b[7]` and `b[8]*256+b[9]`, hasMask iff bit 0 of byte 5 is set, pixels are the tail. A wrong signature gives BadSignature, and a right signature with a wrong version gives UnsupportedVersion |
| Gb7Parse.ShortBufferRejected | src/utils/parse/parseGB7.ts:36-47 | a buffer shorter than 10 bytes never parses; shorter than 4 it is a RangeError |
| Gb7Parse.OtherFlagBitsIgnored | src/utils/parse/parseGB7.ts:43-44 | changing the flag byte without changing bit 0 changes nothing in the result |
| Gb7Parse.AnyPayloadAccepted | src/utils/parse/parseGB7.ts:46-48 | a valid header with any payload parses, whatever its length and whatever the reserved bytes say, and returns the payload as the pixels |
| Gb7ParseLegacy.ParseGb7Legacy | src/utils/parseGB7.ts:9-28 | the older decoder accepts exactly the buffers with 10 bytes, signature and version, and reads the same fields |
| Gb7ParseLegacy.LegacyAgreesWithCurrent | src/utils/parseGB7.ts:9-28 | both decoders give the same result, error or image, on every buffer |
| CurvesTypes.Clamp255 | src/types/curves.ts:15 | clamp255 is an integer in [0, 255]: 0 below 0, 255 above 255, the rounded value in between |
| CurvesTypes.Clamp127 | src/types/curves.ts:16 | clamp127 is an integer in [0, 127]: 0 below 0, 127 above 127, the rounded value in between |
| CurvesTypes.GraphSizes | src/types/curves.ts:6-9 | each graph size is one more than its domain maximum (256 and 128) |
| CurvesTypes.ClampsFixInRange | src/types/curves.ts:15-16 | both clamps are the identity on in-range integers |
| CurvesTypes.ClampsIdempotent | src/types/curves.ts:15-16 | clamping twice is clamping once |
| CurvesTypes.ClampsMonotone | src/types/curves.ts:15-16 | both clamps are monotone non-decreasing |
| Gb7Encode.Gray8To7 | src/utils/encode/encodeGB7.ts:11-12 | gray8to7 always lies in 0..127 |
| Gb7Encode.Luma709 | src/utils/encode/encodeGB7.ts:14-15 | for byte inputs the luma is in 0..255, and a grey pixel (r = g = b) has luma r |
| Gb7Encode.PixelByte | src/utils/encode/encodeGB7.ts:52-55 | bit 7 of a pixel byte is set iff alpha >= 128, and its low 7 bits are the quantised luma |
| Gb7Encode.EncodedPixels | src/utils/encode/encodeGB7.ts:40 | there is one encoded byte per RGBA pixel |
| Gb7Encode.BE16 | src/utils/encode/encodeGB7.ts:67-69 | setUint16 writes the value modulo 65536 as two bytes, high first |
| Gb7Encode.Header | src/utils/encode/encodeGB7.ts:62-69 | the header is 12 bytes long |
| Gb7Encode.Gb7File | src/utils/encode/encodeGB7.ts:71-74 | the file is 12 bytes plus one byte per pixel |
| Gb7Encode.SetUint16 | src/utils/encode/encodeGB7.ts:67-69 | the DataView setter changes exactly the two bytes at the offset, to BE16 of the value |
| Gb7Encode.SetUint32 | src/utils/encode/encodeGB7.ts:64 | the DataView setter changes exactly the four bytes at the offset, to the big-endian value modulo 2^32 |
| Gb7Encode.EncodePixels | src/utils/encode/encodeGB7.ts:40-56 | the pixel loop fills every byte with PixelByte of its pixel. hasTransparent is set iff some alpha is below 128, and hasOpaque iff some alpha is at least 128 |
| Gb7Encode.SignatureBytes | src/utils/encode/encodeGB7.ts:4 | the signature word's four big-endian bytes are 'G', 'B', '7', 0x1D |
| Gb7Encode.WriteHeader | src/utils/encode/encodeGB7.ts:62-69 | the field-by-field DataView writes produce exactly the header |
| Gb7Encode.EncodeGb7 | src/utils/encode/encodeGB7.ts:33-75 | encodeGB7 returns the header with flag 1 iff some normalised pixel is transparent, followed by the encoded pixels of the colour-mode normalisation (honouring forceOpaque) |
| Gb7Encode.HeaderLayout | src/utils/encode/encodeGB7.ts:62-73 | bytes 0-3 are 47 42 37 1D and byte 4 is 1. Byte 5 is 1 iff some pixel is transparent, else 0. Bytes 6-9 are width and height mod 65536 big-endian, bytes 10-11 are 0, and the rest are the pixel bytes |
| Gb7Encode.DecodeEncoded | src/utils/encode/encodeGB7.ts:62-74 | decoding an encoded file returns the 16-bit width and height, hasMask equal to the flag, and exactly the pixel bytes |
| Gb7Encode.EncodeDecodeRoundTrip | src/utils/encode/encodeGB7.ts:62-74 | for sizes below 65536, decoding an encoded file returns exactly the size, the flag and the pixels |
| Gb7Encode.Gray8To7Integer | src/utils/encode/encodeGB7.ts:11-12 | gray8to7 of a byte is the integer round-half-up of g8·127/255 |
| Gb7Encode.LumaRoundTrip | src/utils/encode/encodeGB7.ts:11-15 | widening a 7-bit luma to 8 bits (floor(g7·255/127)) and quantising the grey pixel back gives the same 7-bit luma |
| Gb7Encode.Gb7ByteReencode | src/utils/encode/encodeGB7.ts:50-55 | the byte encoded from a GB7 byte's RGBA pixel keeps its luma bits, and keeps the whole byte when there is a mask and alpha is not forced |
| Gb7Encode.Gb7PixelReencode | src/utils/encode/encodeGB7.ts:45-56 | one pixel of a re-encoded GB7 buffer keeps its luma bits, and keeps the whole byte with a mask and unforced alpha |
| Gb7Encode.Gb7Reencode | src/utils/encode/encodeGB7.ts:37-56 | re-encoding a GB7 layer keeps every luma bit field. It reproduces the pixel bytes exactly when the layer has a mask and neither hides, removes nor forces alpha |
| Gb7Encode.ForceOpaqueEncoding | src/utils/encode/encodeGB7.ts:37-60 | with forceOpaque every mask bit is set and the flag byte is 0. This holds for a GB7 layer with a byte for every pixel, a raster, or an original image |
| Gb7Encode.OpaqueEncoding | src/utils/encode/encodeGB7.ts:52-60 | a buffer whose alphas are all 255 has no transparent pixel, sets every mask bit and writes flag 0 |
| Gb7Encode.DecodeReencodeScenario | src/utils/encode/encodeGB7.ts:37-74 | a concrete 2×2 file with mask and bytes 00 7F 80 FF decodes to lumas 0,127,0,127 and masks 0,0,1,1, and re-encoding it sets the flag again |
| Rgba.Gray7To8 | src/utils/image/rgba.ts:56-57 | floor(g7·255/127): the widened value lies within one unit below g7·255/127, 0 maps to 0 and 127 to 255 |
| Rgba.Gb7Raw | src/utils/image/rgba.ts:52-72 | the GB7 branch output has exactly n·4 bytes for n pixels, whatever the number of GB7 bytes |
| Rgba.AlphaAsGray | src/utils/image/rgba.ts:76-81 | the alpha-only raster output has the source's length |
| Rgba.WithOpaqueAlpha | src/utils/image/rgba.ts:83-85 | forcing alpha keeps the buffer's length |
| Rgba.RasterRaw | src/utils/image/rgba.ts:74-88 | a raster branch keeps the source's length |
| Rgba.Normalized | src/utils/image/rgba.ts:34-112 | toRGBA returns width·height·4 bytes with the layer's width and height, whatever the branch |
| Rgba.SetFrom | src/utils/image/rgba.ts:86 | `raw.set(src)` makes the buffer equal to the source |
| Rgba.FillAlphaAsGray | src/utils/image/rgba.ts:77-81 | the alpha-only loop writes exactly AlphaAsGray of the source |
| Rgba.ForceOpaqueInPlace | src/utils/image/rgba.ts:83-85 | the in-place loop sets every alpha byte to 255 and leaves the colour bytes |
| Rgba.RasterInto | src/utils/image/rgba.ts:74-88 | the raster branch (working copy, then alpha-only or forced colour) writes exactly RasterRaw |
| Rgba.FillFromGb7 | src/utils/image/rgba.ts:52-72 | the GB7 loop writes exactly Gb7Raw: writes past the end are dropped and missing pixels stay zero |
| Rgba.ToRgba | src/utils/image/rgba.ts:34-112 | toRGBA's result is Normalized: branches are tried in source order and the buffer stays zero when none applies |
| Rgba.NoBranchAllZero | src/utils/image/rgba.ts:38-111 | when no branch applies, every output byte is 0. This covers a colour layer whose colour is empty, and a non-GB7 layer carrying pixels but no raster or original |
| Rgba.Gb7RawAt | src/utils/image/rgba.ts:54-70 | channel c of GB7 pixel p depends on GB7 byte p alone |
| Rgba.Gb7ColorChannels | src/utils/image/rgba.ts:63-70 | in GB7 colour mode R = G = B = floor(g7·255/127). Alpha is 255 without a mask or when hidden, removed or forced, and otherwise 255 or 0 by bit 7 |
| Rgba.Gb7AlphaOnlyChannels | src/utils/image/rgba.ts:59-62 | in GB7 alpha-only mode R = G = B = the mask as 0/255 (255 without a mask), and A = 255 |
| Rgba.Gb7RawPixel | src/utils/image/rgba.ts:54-70 | the four bytes of GB7 pixel p are the four channels made from byte p |
| Rgba.AlphaOnlyIgnoresForceFlags | src/utils/image/rgba.ts:52-102 | alpha-only output never depends on forceOpaque, alphaHidden or alphaRemoved, in any branch |
| Rgba.RasterColorCopies | src/utils/image/rgba.ts:82-87 | raster colour mode copies every byte, except that alpha becomes 255 exactly when hidden, removed or forced |
| Rgba.RasterAlphaOnlyGray | src/utils/image/rgba.ts:76-81 | raster alpha-only mode sets R = G = B = the source alpha and A = 255 |
| Rgba.AlphaAsGrayPixel | src/utils/image/rgba.ts:77-81 | pixel p of the alpha-only output is three copies of the source alpha, then 255 |
| Rgba.BranchOrder | src/utils/image/rgba.ts:41-90 | a colour layer wins over GB7 bytes, GB7 bytes over a raster, and a raster over the original |
| BuildLut.NormalizeKnots | src/utils/curves/buildLUT.ts:33-43 | the control points are rounded and clamped to [0, max], and swapped (with their y values) exactly when the first x exceeds the second |
| BuildLut.Lut | src/utils/curves/buildLUT.ts:45-61 | the table has max+1 entries, each in [0, max] |
| BuildLut.BuildLut | src/utils/curves/buildLUT.ts:26-62 | the swap and the fill loop produce exactly Lut |
| BuildLut.SegBetween | src/utils/curves/buildLUT.ts:47-51 | on a rising segment, seg stays between its endpoint values |
| BuildLut.SegMonotone | src/utils/curves/buildLUT.ts:47-51 | seg is non-decreasing along a rising segment |
| BuildLut.SegDiagonal | src/utils/curves/buildLUT.ts:47-51 | a segment of the diagonal is the diagonal (its right end when vertical) |
| BuildLut.SegAtEnd | src/utils/curves/buildLUT.ts:48-50 | seg takes its right endpoint's value there |
| BuildLut.SegAtStart | src/utils/curves/buildLUT.ts:49-50 | a non-vertical seg takes its left endpoint's value there |
| BuildLut.DiagonalIsIdentity | src/utils/curves/buildLUT.ts:53-59 | control points on the diagonal, `buildLUT(0,0,max,max,max)` among them, give `lut[x] == x` |
| BuildLut.PassesThroughKnots | src/utils/curves/buildLUT.ts:53-58 | `lut[x1'] == y1'`, and `lut[x2'] == y2'` when x1' < x2'. `lut[0] == 0` when x1' > 0, and `lut[max] == max` when x2' < max |
| BuildLut.ControlPointOrder | src/utils/curves/buildLUT.ts:40-43 | swapping the two control points builds the same table when their clamped x values differ |
| BuildLut.CurveMonotone | src/utils/curves/buildLUT.ts:53-57 | with ordered y1' <= y2' the polyline is non-decreasing on [0, max] |
| BuildLut.LutMonotone | src/utils/curves/buildLUT.ts:53-58 | with ordered y1' <= y2' the table is non-decreasing |
| ApplyCurves.Lookup | src/utils/curves/applyCurves.ts:38-41 | a table read gives the entry in range, and 0 (undefined stored into a Uint8ClampedArray) past the end |
| ApplyCurves.Curved | src/utils/curves/applyCurves.ts:29-43 | the curved data keeps the source's length |
| ApplyCurves.CurvePixel | src/utils/curves/applyCurves.ts:38-41 | one iteration maps the four bytes of one pixel through their channels' tables and leaves every other byte |
| ApplyCurves.ApplyCurves | src/utils/curves/applyCurves.ts:25-44 | applyCurves returns the same width and height, with data Curved from the source |
| ApplyCurves.CurveStep | src/utils/curves/applyCurves.ts:37-42 | one more pixel of the loop extends the curved prefix by four bytes |
| ApplyCurves.CurvedAll | src/utils/curves/applyCurves.ts:37-43 | after the last pixel the buffer is Curved |
| ApplyCurves.NoLutsIsIdentity | src/utils/curves/applyCurves.ts:37-42 | with no tables the data comes back identical |
| ApplyCurves.IdentityLutsAreIdentity | src/utils/curves/applyCurves.ts:37-42 | identity tables, or no table, on every channel leave the data identical |
| ApplyCurves.DiagonalCurvesAreIdentity | src/utils/curves/applyCurves.ts:37-42 | tables built from diagonal control points, on any set of channels, leave the image identical |
| ApplyCurves.ChannelsIndependent | src/utils/curves/applyCurves.ts:37-42 | channel c becomes `lut[value]` of the same channel of the source; a channel without a table is unchanged |
| ApplyCurves.CurvesCompose | src/utils/curves/applyCurves.ts:37-42 | applying two sets of tables in turn equals applying their composition once |
| ApplyCurves.ComposeAt | src/utils/curves/applyCurves.ts:38-41 | the composed table maps a byte through the first table, then the second |
| ApplyCurves.LumaAsWritten | src/utils/curves/applyCurves.ts:69 | `yLut[y7] >>> 1` (or y7 without a table) lies in 0..127 |
| ApplyCurves.Luma | src/utils/curves/applyCurves.ts:69 | the corrected luma, the table entry itself (or y7 without a table), lies in 0..127 |
| ApplyCurves.CurvedByte | src/utils/curves/applyCurves.ts:70-98 | the low 7 bits of an output byte are the new luma, and bit 7 is set iff the alpha mode's rule says so |
| ApplyCurves.Gb7CurvesAsWritten | src/utils/curves/applyCurves.ts:57-102 | applyCurvesGB7 as written keeps the input's length |
| ApplyCurves.Gb7Curves | src/utils/curves/applyCurves.ts:57-102 | the corrected applyCurvesGB7 keeps the input's length |
| ApplyCurves.ApplyCurvesGb7 | src/utils/curves/applyCurves.ts:57-102 | the loop, with its mode switch updating newA, produces exactly Gb7CurvesAsWritten |
| ApplyCurves.WithoutLutDefinitionsAgree | src/utils/curves/applyCurves.ts:66-98 | without a luma table the as-written and corrected applyCurvesGB7 agree in every alpha mode, so the mask-mode lemmas about the corrected definition also hold for the code as written, as the editor calls it for threshold masks |
| ApplyCurves.PreserveWithoutLutIsIdentity | src/utils/curves/applyCurves.ts:66-74 | preserve without a table returns the input byte for byte, under both definitions |
| ApplyCurves.AlphaModesKeepLuma | src/utils/curves/applyCurves.ts:72-98 | without a table every mode keeps the luma bits. Opaque sets every mask bit, transparent clears every one, and preserve returns the byte |
| ApplyCurves.ThresholdRule | src/utils/curves/applyCurves.ts:81-95 | threshold mode tests `pass = invert ? y < th : y >= th` on the new luma, with th defaulting to 64. Replace keeps pass, or adds it to the old bit, and `and` (the default) intersects them |
| ApplyCurves.LumaFollowsTable | src/utils/curves/applyCurves.ts:69 | with the corrected definition and a 0..127 table, the output luma is the table entry of the input luma |
| ApplyCurves.DiagonalGb7CurveIsIdentity | src/utils/curves/applyCurves.ts:69 | with the corrected definition, the identity 0..127 table under preserve leaves every GB7 byte unchanged |
| ApplyCurves.AsWrittenDiagonalCurveHalvesLuma | src/utils/curves/applyCurves.ts:69 | as written, the identity 0..127 table halves every luma and keeps every mask bit |
| ApplyCurves.AsWrittenWhiteBecomesGrey | src/utils/curves/applyCurves.ts:69 | as written, the identity table turns the opaque white byte 0xFF into 0xBF |
| Histogram.Count | src/utils/curves/calcHistogram.ts:24 | an occurrence count never exceeds the sequence length |
| Histogram.Hist | src/utils/curves/calcHistogram.ts:23-24 | a histogram has exactly the requested number of bins |
| Histogram.Channel | src/utils/curves/calcHistogram.ts:32-36 | channel c of n pixels has n values |
| Histogram.AlphaHistogram | src/utils/curves/calcHistogram.ts:22-25 | the alpha-only loop reads offset 3 of each pixel and its bin v counts the pixels with alpha v |
| Histogram.CountPixel | src/utils/curves/calcHistogram.ts:33-35 | one increment extends a channel's bins from p pixels to p+1 |
| Histogram.CountRgbPixel | src/utils/curves/calcHistogram.ts:32-36 | one iteration extends all three RGB histograms by one pixel |
| Histogram.RgbHistogram | src/utils/curves/calcHistogram.ts:28-37 | the RGB loop reads offsets 0-2 of each pixel and returns the 256-bin histogram of each channel |
| Histogram.CountedHist | src/utils/curves/calcHistogram.ts:37 | bins that have counted every pixel are the channel's histogram |
| Histogram.CalcHistogram | src/utils/curves/calcHistogram.ts:16-38 | calcHistogram returns the alpha histogram in alpha-only mode, and the R, G and B histograms otherwise |
| Histogram.Lumas | src/utils/curves/calcHistogram.ts:53 | there is one luma per GB7 byte |
| Histogram.Masks | src/utils/curves/calcHistogram.ts:55-56 | there is one mask bit per GB7 byte |
| Histogram.CalcHistogramGb7 | src/utils/curves/calcHistogram.ts:46-66 | calcHistogramGB7 returns the 128-bin luma histogram, `[a0, a1]`, and alphaDist with a0 at 0 and a1 at 127 |
| Histogram.CountGb7 | src/utils/curves/calcHistogram.ts:47-57 | the loop's y bins count bytes by `b & 0x7f`; a0 counts mask-clear bytes and a1 mask-set bytes |
| Histogram.HistSum | src/utils/curves/calcHistogram.ts:24 | when every value falls in a bin, the bins add up to the number of values |
| Histogram.CalcHistogramSums | src/utils/curves/calcHistogram.ts:22-37 | alpha-only gives one 256-bin histogram and RGB gives three. Each sums to data.length/4 |
| Histogram.Gb7HistogramTotals | src/utils/curves/calcHistogram.ts:46-65 | the luma bins sum to the byte count and a0 + a1 is the byte count. alphaDist holds a0 at 0 and a1 at 127, and is 0 elsewhere |
| Histogram.MaskCountIsOpaquePixels | src/utils/curves/calcHistogram.ts:55-56 | a1 is the number of bytes whose bit 7 is set |
| Convolution.Divisor | src/utils/image/convolution.ts:64-67 | a divisor that is not given explicitly (the coefficient sum, or 1 when that sum is 0) is never 0 |
| Convolution.ClampCoord | src/utils/image/convolution.ts:30-31 | an edge-extended coordinate is in range, and an in-range coordinate is unchanged |
| Convolution.SampleIndex | src/utils/image/convolution.ts:29-34 | clamp-to-edge sampling always reads an in-bounds byte of the requested channel, for w, h >= 1 |
| Convolution.Clamp8 | src/utils/image/convolution.ts:37-39 | clamp8 is 0 below 0 and 255 above 255, and truncates toward zero in between |
| Convolution.ConvolvedChannel | src/utils/image/convolution.ts:52-90 | the output has the source's length |
| Convolution.ConvolvePixel | src/utils/image/convolution.ts:72-86 | the nine accumulations in source order, divided, biased and clamped, give ConvAt (an explicit divisor 0 gives 255 for a positive sum, else 0) |
| Convolution.ConvolvedAt | src/utils/image/convolution.ts:85 | the index `(y*w + x)*4 + c` is in bounds and holds ConvAt(x, y) in the output |
| Convolution.FilterPixel | src/utils/image/convolution.ts:72-86 | one inner iteration writes channel c of pixel y·w+x and nothing else |
| Convolution.Store | src/utils/image/convolution.ts:86 | `out[i] = clamp8(v)` extends the filtered prefix by one pixel |
| Convolution.ConvolveRow | src/utils/image/convolution.ts:71-87 | one row of the loop filters channel c of that row's pixels |
| Convolution.ConvolveChannel3x3 | src/utils/image/convolution.ts:52-90 | the copy-then-overwrite loop returns ConvolvedChannel: channel c filtered, the other three channels byte-identical to the source |
| Convolution.RgbConvolved | src/utils/image/convolution.ts:100-111 | the RGB result keeps the source's length |
| Convolution.ConvolveRgb3x3 | src/utils/image/convolution.ts:100-111 | convolveRGB3x3 returns the three chained channel passes, with the same size |
| Convolution.ConvolveAlpha3x3 | src/utils/image/convolution.ts:121-130 | convolveAlpha3x3 returns the alpha pass, with the same size |
| Convolution.IdentityAt | src/utils/image/convolution.ts:139 | the identity preset reproduces each byte of the channel it filters |
| Convolution.IdentityPresetIsIdentity | src/utils/image/convolution.ts:139 | the identity preset returns the input unchanged |
| Convolution.RgbIdentityPresetIsIdentity | src/utils/image/convolution.ts:100-111 | convolveRGB3x3 with the identity preset returns the image unchanged |
| Convolution.AccReadsOneChannel | src/utils/image/convolution.ts:72-82 | the window sum reads only the filtered channel of the source |
| Convolution.ChannelPassesCommute | src/utils/image/convolution.ts:105-107 | filtering channel c and then channel d equals filtering each from the original |
| Convolution.RgbIsPerChannel | src/utils/image/convolution.ts:100-111 | convolveRGB3x3 filters R, G and B each from the original and leaves alpha unchanged |
| Convolution.AlphaKeepsColour | src/utils/image/convolution.ts:121-130 | convolveAlpha3x3 leaves R, G and B unchanged |
| Convolution.AccOfConstant | src/utils/image/convolution.ts:72-82 | on a flat channel of value v the window sum is v times the coefficient sum |
| Convolution.FlatAt | src/utils/image/convolution.ts:84-86 | a kernel divided by its own sum, with no bias, maps a flat value to itself |
| Convolution.OutValueOfScaled | src/utils/image/convolution.ts:84-86 | dividing r·d by d, with no bias, stores clamp8(r) |
| Convolution.NormalizedKernelKeepsFlat | src/utils/image/convolution.ts:64-86 | a kernel whose divisor is its non-zero coefficient sum, with no bias, returns a flat channel unchanged (PresetsNormalized shows identity, sharpen, gauss3 and box are such kernels) |
| Convolution.PrewittOfFlatIsMidGrey | src/utils/image/convolution.ts:143-144 | the Prewitt presets turn a flat channel into 128, the bias |
| Convolution.PresetsNormalized | src/utils/image/convolution.ts:139-144 | identity and sharpen sum to 1. Gauss3 and box divide by their sums, and the Prewitt kernels sum to 0 |
| Raster.PixelOf | src/utils/image/interpolation.ts:34 | `subarray(srcIdx, srcIdx + 4)` is the four channels of the pixel |
| Raster.Cell | src/utils/image/interpolation.ts:71-72 | on exact reals, `Math.floor(x * (n/d))` equals `(x*n) div d`, lies in [0, n], and lies below n when n > 0 |
| Raster.Frac | src/utils/image/interpolation.ts:73-74 | the interpolation weight is in [0, 1), and cell plus weight is the sampling position |
| Raster.Next | src/utils/image/interpolation.ts:76-77 | `Math.min(i + 1, s - 1)` is an in-range neighbour, i+1 or i itself |
| Raster.FloorIsCell | src/utils/image/interpolation.ts:69-74 | flooring x·ratio gives the cell and the remainder gives the weight |
| Raster.SameSizeCell | src/utils/image/interpolation.ts:29-30 | at the same size each column samples itself with weight 0 |
| Raster.BlendBetween | src/utils/bilinearInterpolation.ts:37-38 | the nested bilinear blend with weights in [0, 1] stays between any bounds of its four values |
| Interpolation.NearestScaled | src/utils/image/interpolation.ts:16-38 | the nearest output has dstW·dstH·4 bytes |
| Interpolation.NearestByteSource | src/utils/image/interpolation.ts:29-34 | channel c of output pixel (x, y) is channel c of source pixel (floor(x·srcW/dstW), floor(y·srcH/dstH)), and both indices are in bounds |
| Interpolation.NearestPixelSource | src/utils/image/interpolation.ts:29-34 | the four output bytes of a pixel are the four bytes of its source pixel |
| Interpolation.NearestPixel | src/utils/image/interpolation.ts:29-34 | one inner iteration writes the output pixel and nothing past it |
| Interpolation.NearestRow | src/utils/image/interpolation.ts:28-35 | one row of the loop fills that row's pixels |
| Interpolation.ScaleImageNearest | src/utils/image/interpolation.ts:16-38 | scaleImageNearest returns exactly NearestScaled, with no byte left at the zero fill |
| Interpolation.BlendNested | src/utils/image/interpolation.ts:90-94 | the four-term weighted sum equals the row-then-column nested blend |
| Interpolation.BlendBounds | src/utils/image/interpolation.ts:90-94 | with weights in [0, 1] the sum stays between any bounds of its four values |
| Interpolation.ValueInRange | src/utils/image/interpolation.ts:90-96 | Math.round of the bilinear value is a byte |
| Interpolation.BilinearScaled | src/utils/image/interpolation.ts:56-101 | the bilinear output has dstW·dstH·4 bytes |
| Interpolation.BilinearScaledAt | src/utils/image/interpolation.ts:96 | byte `(y*dstW + x)*4 + c` of the output is the rounded value of channel c at (x, y) |
| Interpolation.BilinearByte | src/utils/image/interpolation.ts:69-96 | that byte is the rounded blend of the four clamped neighbours at the pixel's cell, with its fractional weights |
| Interpolation.BilinearChannel | src/utils/image/interpolation.ts:84-97 | one channel iteration writes the next byte of the output |
| Interpolation.BilinearPixel | src/utils/image/interpolation.ts:69-97 | one output pixel's cell, weights and neighbours, then the channel loop, fill its four bytes |
| Interpolation.BilinearRow | src/utils/image/interpolation.ts:68-98 | one row of the loop fills that row's pixels |
| Interpolation.ScaleImageBilinear | src/utils/image/interpolation.ts:56-101 | scaleImageBilinear returns exactly BilinearScaled |
| Interpolation.NearestCopiesPixel | src/utils/image/interpolation.ts:29-34 | each nearest output pixel is a verbatim copy of source pixel (x·srcW div dstW, y·srcH div dstH), which always exists |
| Interpolation.NearestSameSizeIsIdentity | src/utils/image/interpolation.ts:24-34 | nearest scaling to the same size returns the source |
| Interpolation.NearestOfConstant | src/utils/image/interpolation.ts:27-36 | nearest scaling maps an image of one colour to that colour |
| Interpolation.BilinearBetween | src/utils/image/interpolation.ts:76-96 | the four neighbour indices are in bounds for srcW, srcH >= 1. Each output byte lies between the smallest and largest of its four neighbours |
| Interpolation.BilinearOfConstant | src/utils/image/interpolation.ts:90-96 | bilinear scaling maps an image of one colour to that colour |
| Interpolation.BilinearConstantAt | src/utils/image/interpolation.ts:90-96 | one bilinear byte of a one-colour image is that colour's channel |
| Interpolation.BlendAtCorner | src/utils/image/interpolation.ts:90-94 | at weights 0 and 0 the blend is the first neighbour |
| Interpolation.BilinearKeepsOrigin | src/utils/image/interpolation.ts:64-74 | output pixel (0, 0) equals source pixel (0, 0) |
| Interpolation.SameSizeBilinearIsNotIdentity | src/utils/image/interpolation.ts:64-74 | with the (srcW-1)/dstW step, same-size scaling of a 2×1 black-white image gives 128 at column 1, so it is not the identity |
| InterpolationLegacy.ScaleImageNearest | src/utils/interpolation.ts:1-17 | the older nearest scaler returns exactly what the current one returns |
| InterpolationLegacy.ScaleImageBilinear | src/utils/interpolation.ts:19-58 | the older bilinear scaler returns exactly what the current one returns |
| NearestNeighborLegacy.NearestNeighbor | src/utils/nearestNeighborInterpolation.ts:1-30 | a zero target size is an IndexSizeError. Otherwise the result has the target size and targetWidth·targetHeight·4 bytes |
| NearestNeighborLegacy.NearestNeighborInterpolation | src/utils/nearestNeighborInterpolation.ts:11-27 | the zeroed allocation and nested loops return exactly NearestNeighbor, with every pixel written from floor-scaled source coordinates |
| NearestNeighborLegacy.NearestNeighborSameSize | src/utils/nearestNeighborInterpolation.ts:12-25 | scaling to the source's own size returns the source |
| BilinearLegacy.LegacyScaled | src/utils/bilinearInterpolation.ts:20-44 | the output has targetWidth·targetHeight·4 bytes |
| BilinearLegacy.Bilinear | src/utils/bilinearInterpolation.ts:1-47 | a zero target size is an IndexSizeError. Otherwise the result has the target size and a valid buffer |
| BilinearLegacy.LegacyScaledAt | src/utils/bilinearInterpolation.ts:40-41 | byte `destIndex` of the output is the stored value of channel c at (x, y) |
| BilinearLegacy.LegacyChannel | src/utils/bilinearInterpolation.ts:31-42 | one channel iteration writes the next byte of the output |
| BilinearLegacy.LegacyPixel | src/utils/bilinearInterpolation.ts:22-42 | one target pixel's cell and weights, then the channel loop, fill its four bytes |
| BilinearLegacy.LegacyRow | src/utils/bilinearInterpolation.ts:21-43 | one row of the loop fills that row's pixels |
| BilinearLegacy.BilinearInterpolation | src/utils/bilinearInterpolation.ts:1-47 | bilinearInterpolation returns exactly Bilinear |
| BilinearLegacy.Lerp2AtCorner | src/utils/bilinearInterpolation.ts:37-38 | at tx = ty = 0 the value is c00 |
| BilinearLegacy.LegacySameSizeAt | src/utils/bilinearInterpolation.ts:22-41 | at the same size each target byte is the source byte at the same place |
| BilinearLegacy.LegacySameSizeIsIdentity | src/utils/bilinearInterpolation.ts:12-41 | same-size scaling is the identity, because tx = ty = 0 with the w/tw step |
| BilinearLegacy.Lerp2Bounds | src/utils/bilinearInterpolation.ts:37-38 | the value is a convex combination, between any bounds of its four neighbours |
| BilinearLegacy.LegacyBetween | src/utils/bilinearInterpolation.ts:25-41 | `gxi = floor(x·sw/tw) <= sw-1` and the clamped +1 neighbours are in bounds. Each stored byte lies between its four neighbours' minimum and maximum |
| BilinearLegacy.LegacyOfConstant | src/utils/bilinearInterpolation.ts:37-41 | an image of one colour maps to that colour |
| BilinearLegacy.LegacyConstantAt | src/utils/bilinearInterpolation.ts:37-41 | one stored byte of a one-colour image is that colour's channel |
| Resize.ResizeRaw | src/utils/image/resize.ts:26-48 | resizeRaw fails iff dstW <= 0 or dstH <= 0, and the error carries the size. Otherwise it returns dstW·dstH·4 bytes: nearest for `'nearest'`, bilinear for any other method name |
| Resize.ResizeNearestSameSize | src/utils/image/resize.ts:45-46 | nearest resizing to the same size returns the buffer |
| Resize.ResizeBilinearSameSizeDiffers | src/utils/image/resize.ts:45-47 | bilinear resizing to the same size can change the buffer |
| Resize.ResizeOfConstant | src/utils/image/resize.ts:45-47 | either method maps an image of one colour to that colour |

## Left out

- Compositing, drawing and the canvas helpers: they delegate blending, opacity and scaling to the browser canvas, and have no pixel arithmetic of their own.
- toRGBA's colour-layer and original-image branches depend on canvas `fillRect` and `drawImage`. The model takes the pixels the canvas would give back as the parameter `rendered`, and models everything after that readback (the alpha-only loop, forceOpaque, `raw.set`).
- The browser-smoothing scalers (`scaleImageData`), `getColorDepth`, `parseImage`, `getScaledSize`, the download helpers, the SVG curve drawing, `asU8`/`rasterize` and all React components and hooks are outside the pixel engine. They are DOM, file or UI plumbing.
- Floating point is exact `real` arithmetic. IEEE-754 rounding of the BT.709 sum, the lerp, the ratio products and the interpolation weights is not modelled. It can move a value that sits exactly on a rounding tie. It can also make a floor of a whole-number position come out one lower: in doubles `49 * (2/98)` is `0.9999999999999999`. So for a source 2 pixels wide scaled to 98, column 49 samples source column 0 in the source (`Math.floor(x * xRatio)`), where Raster.Cell and Interpolation.NearestCopiesPixel give column 1.
- Gb7Encode.Luma709: is exact up to that IEEE-754 rounding, so a sum that doubles round just below or above a `.5` tie may round differently in the source.
- Common.ClampedStore: models the Uint8ClampedArray store (round half to even) on exact reals, for the legacy bilinear scaler that stores the unrounded value.
- Sizes are natural numbers (or integers for resizeRaw's target size). Non-finite and fractional sizes are not modelled, and neither is the RangeError a negative typed-array length raises.
- Convolution.Divisor: a non-finite coefficient sum (the NaN that `|| 1` also replaces) and non-finite explicit divisors or biases are not modelled. An explicit divisor of 0 is modelled the way the doubles behave: 255 for a positive sum, else 0.
- Histogram.CalcHistogram: the bins are unbounded natural numbers; the source's Uint32Array bins would wrap after 2^32 equal values.
- Histogram.CalcHistogramGb7: the counts are unbounded natural numbers, as in CalcHistogram.
- The resamplers require a source of at least 1×1 pixels with exactly width·height·4 bytes. A smaller source reads `undefined` in the source, and the model does not follow that.
- toRGBA requires a decoded raster's buffer to hold width·height·4 bytes. A longer one makes `raw.set` throw, and a shorter one leaves zeros; neither is modelled. A GB7 byte buffer of any length is modelled exactly: writes past the end are dropped and missing pixels stay zero.
- Typed-array behaviour that could have been a precondition is modelled exactly instead:
  - a table read past its end gives 0;
  - `setUint16` keeps the value modulo 65536;
  - `applyCurvesGB7` keeps `yLut[y7] >>> 1` as written, next to a corrected definition (see Findings).
- Buffers are Dafny values. "The input is not modified" and "the result is a copy" hold by construction, and resizeRaw's defensive copy is not a separate step.
- buildLUT takes max in 0..255, since its Uint8ClampedArray table would clamp larger entries. Curve points and thresholds are exact reals.

## Findings

| source | as written | input that shows it | evidently intended | confidence | as-written member | corrected member |
|---|---|---|---|---|---|---|
| src/utils/curves/applyCurves.ts:69 | the new luma is `yLut[y7] >>> 1`, but the luma table the editor builds for GB7 already spans 0..127 (`buildLUT(..., 127)`), so the shift halves every luma | the identity table `buildLUT(0, 0, 127, 127, 127)` under `preserve`: the opaque white byte 0xFF becomes 0xBF (luma 127 becomes 63) | the luma is the table entry itself, `yLut[y7] & 0x7f`, so the identity curve changes nothing | not executed | ApplyCurves.AsWrittenDiagonalCurveHalvesLuma | ApplyCurves.DiagonalGb7CurveIsIdentity |
