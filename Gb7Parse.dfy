/**
 * Decoding of the GB7 raster format: a 12-byte big-endian header
 * (signature 47 42 37 1D, version 1, flags, width, height, reserved)
 * followed by one byte per pixel (bit 7 mask, bits 6..0 luma).
 * A DataView read past the end of the buffer throws a RangeError.
 */
module Gb7Parse {
  import opened Common

  const Signature: int := 0x4742371D
  const Version: int := 0x01
  const HeaderSize: nat := 12

  datatype Gb7Image = Gb7Image(width: nat, height: nat, hasMask: bool, pixels: seq<byte>)

  datatype ParseError =
    | BadSignature        // 'Неверная сигнатура GB7'
    | UnsupportedVersion  // 'Неподдерживаемая версия'
    | OutOfRange          // RangeError from a DataView read past the end

  datatype Result<T> = Ok(value: T) | Err(error: ParseError)

  /** DataView.getUint16(off, false). */
  function U16BE(b: seq<byte>, off: nat): (v: nat)
    requires off + 2 <= |b|
    ensures v < 0x1_0000
  {
    b[off] as int * 0x100 + b[off + 1] as int
  }

  /** DataView.getUint32(off), big-endian by default. */
  function U32BE(b: seq<byte>, off: nat): (v: nat)
    requires off + 4 <= |b|
    ensures v < 0x1_0000_0000
  {
    U16BE(b, off) * 0x1_0000 + U16BE(b, off + 2)
  }

  /** buffer.slice(12): the bytes from offset 12 on, empty for a shorter buffer. */
  function Tail(b: seq<byte>): (t: seq<byte>)
    ensures |b| >= HeaderSize ==> t == b[HeaderSize..]
    ensures |b| <= HeaderSize ==> t == []
  {
    if |b| >= HeaderSize then b[HeaderSize..] else []
  }

  /** parseGB7: the reads and checks in source order; the first that fails decides the error. */
  function ParseGb7(buffer: seq<byte>): (r: Result<Gb7Image>)
    ensures r.Ok? <==> |buffer| >= 10 && U32BE(buffer, 0) == Signature && buffer[4] == Version
    ensures r.Ok? ==> r.value.width == buffer[6] as int * 256 + buffer[7] as int
    ensures r.Ok? ==> r.value.height == buffer[8] as int * 256 + buffer[9] as int
    ensures r.Ok? ==> (r.value.hasMask <==> buffer[5] % 2 == 1)
    ensures r.Ok? ==> r.value.pixels == Tail(buffer)
    ensures |buffer| >= 4 && U32BE(buffer, 0) != Signature ==> r == Err(BadSignature)
    ensures |buffer| >= 5 && U32BE(buffer, 0) == Signature && buffer[4] != Version ==> r == Err(UnsupportedVersion)
  {
    if |buffer| < 4 then Err(OutOfRange)
    else if U32BE(buffer, 0) != Signature then Err(BadSignature)
    else if |buffer| < 5 then Err(OutOfRange)
    else if buffer[4] != Version then Err(UnsupportedVersion)
    else if |buffer| < 6 then Err(OutOfRange)
    else
      var flag := buffer[5];
      var hasMask := flag % 2 == 1;
      if |buffer| < 8 then Err(OutOfRange)
      else
        var width := U16BE(buffer, 6);
        if |buffer| < 10 then Err(OutOfRange)
        else
          var height := U16BE(buffer, 8);
          Ok(Gb7Image(width, height, hasMask, Tail(buffer)))
  }

  /** A buffer too short for the header reads never parses. */
  lemma ShortBufferRejected(buffer: seq<byte>)
    requires |buffer| < 10
    ensures ParseGb7(buffer).Err?
    ensures |buffer| < 4 ==> ParseGb7(buffer) == Err(OutOfRange)
  {
  }

  /** Only bit 0 of the flag byte matters: changing the other bits changes nothing. */
  lemma OtherFlagBitsIgnored(buffer: seq<byte>, flag: byte)
    requires |buffer| >= 6 && flag % 2 == buffer[5] % 2
    ensures ParseGb7(buffer[5 := flag]) == ParseGb7(buffer)
  {
    var b' := buffer[5 := flag];
    assert U32BE(b', 0) == U32BE(buffer, 0);
    assert |buffer| >= 10 ==> U16BE(b', 6) == U16BE(buffer, 6) && U16BE(b', 8) == U16BE(buffer, 8);
    assert |buffer| >= HeaderSize ==> b'[HeaderSize..] == buffer[HeaderSize..];
  }

  /**
   * Neither the reserved bytes 10..11 nor the number of pixel bytes is checked:
   * any header prefix with the right signature and version accepts any payload,
   * and the payload comes back as it is.
   */
  lemma AnyPayloadAccepted(header: seq<byte>, payload: seq<byte>)
    requires |header| == HeaderSize
    requires U32BE(header, 0) == Signature && header[4] == Version
    ensures ParseGb7(header + payload).Ok?
    ensures ParseGb7(header + payload).value.pixels == payload
    ensures ParseGb7(header + payload).value.width == header[6] as int * 256 + header[7] as int
  {
    var b := header + payload;
    assert b[..4] == header[..4];
    assert U32BE(b, 0) == U32BE(header, 0);
    assert b[HeaderSize..] == payload;
  }
}
