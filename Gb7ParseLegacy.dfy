/**
 * The older copy of the GB7 decoder, kept beside the current one. It performs
 * the same reads and checks in the same order.
 */
module Gb7ParseLegacy {
  import opened Common
  import opened Gb7Parse

  /** parseGB7 (older copy). */
  function ParseGb7Legacy(buffer: seq<byte>): (r: Result<Gb7Image>)
    ensures r.Ok? <==> |buffer| >= 10 && U32BE(buffer, 0) == Signature && buffer[4] == Version
    ensures r.Ok? ==> r.value.width == U16BE(buffer, 6) && r.value.height == U16BE(buffer, 8)
    ensures r.Ok? ==> (r.value.hasMask <==> buffer[5] % 2 == 1)
    ensures r.Ok? ==> r.value.pixels == Tail(buffer)
  {
    if |buffer| < 4 then Err(OutOfRange)
    else if U32BE(buffer, 0) != 0x4742371D then Err(BadSignature)
    else if |buffer| < 5 then Err(OutOfRange)
    else if buffer[4] != 0x01 then Err(UnsupportedVersion)
    else if |buffer| < 6 then Err(OutOfRange)
    else
      var hasMask := buffer[5] % 2 == 1;
      if |buffer| < 8 then Err(OutOfRange)
      else if |buffer| < 10 then Err(OutOfRange)
      else Ok(Gb7Image(U16BE(buffer, 6), U16BE(buffer, 8), hasMask, Tail(buffer)))
  }

  /** Both decoders give the same result, error or image, on every buffer. */
  lemma LegacyAgreesWithCurrent(buffer: seq<byte>)
    ensures ParseGb7Legacy(buffer) == ParseGb7(buffer)
  {
  }
}
