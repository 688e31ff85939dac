/**
 * Applying curves: per-channel LUTs on RGBA ImageData (a channel without a
 * LUT is copied), and a luma LUT plus an alpha-mask rule on GB7 pixel bytes.
 */
module ApplyCurves {
  import opened Common
  import opened ImageTypes
  import opened BuildLut

  /**
   * lut[v] read from a Uint8Array: undefined past the end, which the
   * Uint8ClampedArray store turns into 0.
   */
  function Lookup(lut: seq<byte>, v: int): (r: byte)
    ensures 0 <= v < |lut| ==> r == lut[v]
    ensures !(0 <= v < |lut|) ==> r == 0
  {
    if 0 <= v < |lut| then lut[v] else 0
  }

  /** The optional LUTs of the four channels. */
  datatype Luts = Luts(r: Option<seq<byte>>, g: Option<seq<byte>>, b: Option<seq<byte>>, a: Option<seq<byte>>)

  function LutFor(luts: Luts, c: int): Option<seq<byte>>
  {
    if c == 0 then luts.r else if c == 1 then luts.g else if c == 2 then luts.b else luts.a
  }

  /** A channel value after its LUT, if the channel has one. */
  function ApplyLut(lut: Option<seq<byte>>, v: byte): byte
  {
    match lut
    case None => v
    case Some(l) => Lookup(l, v)
  }

  /** The data applyCurves returns. */
  function Curved(data: seq<byte>, luts: Luts): (out: seq<byte>)
    ensures |out| == |data|
  {
    seq(|data|, k requires 0 <= k < |data| => ApplyLut(LutFor(luts, k % 4), data[k]))
  }

  /** One iteration of applyCurves: the four channels of the pixel at byte i go through their LUTs. */
  method CurvePixel(out: array<byte>, i: nat, luts: Luts)
    requires i % 4 == 0 && i + 4 <= out.Length
    modifies out
    ensures forall k :: 0 <= k < out.Length ==>
      out[k] == (if i <= k < i + 4 then ApplyLut(LutFor(luts, k % 4), old(out[k])) else old(out[k]))
  {
    assert (i + 1) % 4 == 1 && (i + 2) % 4 == 2 && (i + 3) % 4 == 3;
    if luts.r.Some? { out[i + 0] := Lookup(luts.r.value, out[i + 0]); }
    if luts.g.Some? { out[i + 1] := Lookup(luts.g.value, out[i + 1]); }
    if luts.b.Some? { out[i + 2] := Lookup(luts.b.value, out[i + 2]); }
    if luts.a.Some? { out[i + 3] := Lookup(luts.a.value, out[i + 3]); }
  }

  /** applyCurves: the loop over a copy of the source data. */
  method ApplyCurves(src: ImageData, luts: Luts) returns (res: ImageData)
    requires ValidImageData(src)
    ensures res == ImageData(Curved(src.data, luts), src.width, src.height)
  {
    ChannelIndex(src.width * src.height, 0);
    assert |src.data| % 4 == 0;
    var out := new byte[|src.data|](k requires 0 <= k < |src.data| => src.data[k]);
    var i := 0;
    assert CurvedUpTo(out[..], src.data, luts, 0);
    while i < out.Length
      invariant 0 <= i <= out.Length && i % 4 == 0
      invariant CurvedUpTo(out[..], src.data, luts, i)
    {
      WholePixelLeft(i, out.Length);
      ghost var before := out[..];
      CurvePixel(out, i, luts);
      CurveStep(before, out[..], src.data, luts, i);
      i := i + 4;
    }
    CurvedAll(out[..], src.data, luts);
    res := ImageData(out[..], src.width, src.height);
  }

  /** The bytes before i have gone through their LUTs; the rest are still the source's. */
  predicate CurvedUpTo(a: seq<byte>, src: seq<byte>, luts: Luts, i: nat)
  {
    |a| == |src| && forall k :: 0 <= k < |a| ==> a[k] == (if k < i then ApplyLut(LutFor(luts, k % 4), src[k]) else src[k])
  }

  /** One pixel more of the loop of applyCurves. */
  lemma CurveStep(before: seq<byte>, after: seq<byte>, src: seq<byte>, luts: Luts, i: nat)
    requires CurvedUpTo(before, src, luts, i) && i + 4 <= |before| && |after| == |before|
    requires forall k :: 0 <= k < |after| ==>
      after[k] == (if i <= k < i + 4 then ApplyLut(LutFor(luts, k % 4), before[k]) else before[k])
    ensures CurvedUpTo(after, src, luts, i + 4)
  {
  }

  /** When every byte has been through its LUT, the buffer is Curved. */
  lemma CurvedAll(a: seq<byte>, src: seq<byte>, luts: Luts)
    requires CurvedUpTo(a, src, luts, |src|)
    ensures a == Curved(src, luts)
  {
  }

  // ---------------------------------------------------------------------
  // RGBA properties

  /** Without LUTs the data is returned unchanged. */
  lemma NoLutsIsIdentity(data: seq<byte>)
    ensures Curved(data, Luts(None, None, None, None)) == data
  {
  }

  /** A table with t[v] == v for every byte. */
  predicate IsIdentityLut(t: seq<byte>)
  {
    |t| >= 256 && forall v :: 0 <= v < 256 ==> t[v] == v
  }

  /** Identity tables, or none, leave the data unchanged. */
  lemma {:induction false} IdentityLutsAreIdentity(data: seq<byte>, luts: Luts)
    requires forall c :: 0 <= c < 4 ==> LutFor(luts, c).None? || IsIdentityLut(LutFor(luts, c).value)
    ensures Curved(data, luts) == data
  {
    forall k | 0 <= k < |data|
      ensures Curved(data, luts)[k] == data[k]
    {
      var c := k % 4;
      assert LutFor(luts, c).None? || IsIdentityLut(LutFor(luts, c).value);
    }
  }

  /** Curves built from diagonal control points, on any channels, leave an image unchanged. */
  lemma {:induction false} DiagonalCurvesAreIdentity(data: seq<byte>, a: real, b: real, onR: bool, onG: bool, onB: bool, onA: bool)
    ensures var t := Lut(a, a, b, b, 255);
      Curved(data, Luts(if onR then Some(t) else None, if onG then Some(t) else None,
                        if onB then Some(t) else None, if onA then Some(t) else None)) == data
  {
    var t := Lut(a, a, b, b, 255);
    DiagonalIsIdentity(a, b, 255);
    assert IsIdentityLut(t);
    var luts := Luts(if onR then Some(t) else None, if onG then Some(t) else None,
                     if onB then Some(t) else None, if onA then Some(t) else None);
    forall c | 0 <= c < 4
      ensures LutFor(luts, c).None? || IsIdentityLut(LutFor(luts, c).value)
    {
    }
    IdentityLutsAreIdentity(data, luts);
  }

  /**
   * Channel c of every pixel depends only on the same channel of the source
   * and on the LUT of that channel; a channel without a LUT is copied.
   */
  lemma {:induction false} ChannelsIndependent(data: seq<byte>, luts: Luts, p: nat, c: nat)
    requires |data| % 4 == 0 && p < |data| / 4 && c < 4
    ensures Curved(data, luts)[4 * p + c] == ApplyLut(LutFor(luts, c), data[4 * p + c])
    ensures LutFor(luts, c).None? ==> Curved(data, luts)[4 * p + c] == data[4 * p + c]
  {
    ChannelIndex(p, c);
    assert 4 * p + c == p * 4 + c;
  }

  /** Applying two sets of full tables in turn is applying their composition. */
  lemma {:induction false} CurvesCompose(data: seq<byte>, l1: Luts, l2: Luts)
    ensures Curved(Curved(data, l1), l2) == Curved(data, ComposeLuts(l1, l2))
  {
    forall k | 0 <= k < |data|
      ensures Curved(Curved(data, l1), l2)[k] == Curved(data, ComposeLuts(l1, l2))[k]
    {
      ComposeAt(LutFor(l1, k % 4), LutFor(l2, k % 4), data[k]);
    }
  }

  /** The table that applies t1 then t2 (None when the channel has neither). */
  function Compose(t1: Option<seq<byte>>, t2: Option<seq<byte>>): Option<seq<byte>>
  {
    if t1.None? && t2.None? then None
    else Some(seq(256, v requires 0 <= v < 256 => ApplyLut(t2, ApplyLut(t1, v))))
  }

  function ComposeLuts(l1: Luts, l2: Luts): Luts
  {
    Luts(Compose(l1.r, l2.r), Compose(l1.g, l2.g), Compose(l1.b, l2.b), Compose(l1.a, l2.a))
  }

  lemma ComposeAt(t1: Option<seq<byte>>, t2: Option<seq<byte>>, v: byte)
    ensures ApplyLut(Compose(t1, t2), v) == ApplyLut(t2, ApplyLut(t1, v))
  {
  }

  // ---------------------------------------------------------------------
  // GB7

  datatype Combine = Replace | Or | And

  /** GB7AlphaMode; an absent threshold means 64 and an absent combine means and. */
  datatype AlphaMode =
    | Preserve
    | Opaque
    | Transparent
    | Threshold(threshold: Option<real>, invert: bool, combine: Option<Combine>)

  const DefaultThreshold: real := 64.0

  /** yLut[y7] >>> 1, as written; y7 without a LUT. */
  function LumaAsWritten(yLut: Option<seq<byte>>, y7: int): (y: int)
    ensures 0 <= y <= 127
    requires 0 <= y7 <= 127
  {
    match yLut
    case None => y7
    case Some(t) => Lookup(t, y7) / 2
  }

  /** yLut[y7] & 0x7f: the entry of a 0..127 table used as the new luma; y7 without a LUT. */
  function Luma(yLut: Option<seq<byte>>, y7: int): (y: int)
    ensures 0 <= y <= 127
    requires 0 <= y7 <= 127
  {
    match yLut
    case None => y7
    case Some(t) => Lookup(t, y7) % 0x80
  }

  /** Whether the new mask bit is set, from the old bit and the luma the threshold tests. */
  predicate MaskSet(mode: AlphaMode, aBit: bool, yForTh: int)
  {
    match mode
    case Preserve => aBit
    case Opaque => true
    case Transparent => false
    case Threshold(th, invert, combine) =>
      var t := if th.Some? then th.value else DefaultThreshold;
      var pass := if invert then (yForTh as real) < t else (yForTh as real) >= t;
      var c := if combine.Some? then combine.value else And;
      match c
      case Replace => pass
      case Or => aBit || pass
      case And => aBit && pass
  }

  /** One output byte: newA | (newY7 & 0x7f). */
  function CurvedByte(b: byte, newY7: int, mode: AlphaMode): (v: byte)
    requires 0 <= newY7 <= 127
    ensures v % 0x80 == newY7
    ensures (v >= 0x80) == MaskSet(mode, b >= 0x80, newY7)
  {
    (if MaskSet(mode, b >= 0x80, newY7) then 0x80 else 0x00) + newY7
  }

  /** applyCurvesGB7 as written (luma from yLut[y7] >>> 1). */
  function Gb7CurvesAsWritten(pixels: seq<byte>, yLut: Option<seq<byte>>, mode: AlphaMode): (out: seq<byte>)
    ensures |out| == |pixels|
  {
    seq(|pixels|, i requires 0 <= i < |pixels| =>
      CurvedByte(pixels[i], LumaAsWritten(yLut, pixels[i] % 0x80), mode))
  }

  /** applyCurvesGB7 with the luma taken straight from the 0..127 table. */
  function Gb7Curves(pixels: seq<byte>, yLut: Option<seq<byte>>, mode: AlphaMode): (out: seq<byte>)
    ensures |out| == |pixels|
  {
    seq(|pixels|, i requires 0 <= i < |pixels| =>
      CurvedByte(pixels[i], Luma(yLut, pixels[i] % 0x80), mode))
  }

  /** Without a luma table the shift is never applied, so both definitions agree in every mode. */
  lemma WithoutLutDefinitionsAgree(pixels: seq<byte>, mode: AlphaMode)
    ensures Gb7CurvesAsWritten(pixels, None, mode) == Gb7Curves(pixels, None, mode)
  {
  }

  /** The loop of applyCurvesGB7, as written. */
  method ApplyCurvesGb7(pixels: seq<byte>, yLut: Option<seq<byte>>, alphaMode: AlphaMode) returns (res: seq<byte>)
    ensures res == Gb7CurvesAsWritten(pixels, yLut, alphaMode)
  {
    var out := new byte[|pixels|];
    for i := 0 to |pixels|
      invariant forall j :: 0 <= j < i ==> out[j] == Gb7CurvesAsWritten(pixels, yLut, alphaMode)[j]
    {
      var b := pixels[i];
      var y7 := b % 0x80;
      var aBit := if b >= 0x80 then 0x80 else 0x00;
      var newY7 := if yLut.Some? then Lookup(yLut.value, y7) / 2 else y7;
      var newA := aBit;
      match alphaMode {
        case Preserve =>
        case Opaque => newA := 0x80;
        case Transparent => newA := 0x00;
        case Threshold(threshold, invert, combine) =>
          var th := if threshold.Some? then threshold.value else 64.0;
          var yForTh := if yLut.Some? then newY7 else y7;
          var pass := if invert then (yForTh as real) < th else (yForTh as real) >= th;
          var thA := if pass then 0x80 else 0x00;
          var c := if combine.Some? then combine.value else And;
          newA := if c == Replace then thA
                  else if c == Or then (if aBit == 0x80 || thA == 0x80 then 0x80 else 0x00)
                  else (if aBit == 0x80 && thA == 0x80 then 0x80 else 0x00);
      }
      out[i] := newA + newY7;
    }
    res := out[..];
  }

  // ---------------------------------------------------------------------
  // GB7 properties (of the corrected definition unless named AsWritten)

  /** Without a LUT, preserve returns the pixels unchanged, in both definitions. */
  lemma PreserveWithoutLutIsIdentity(pixels: seq<byte>)
    ensures Gb7Curves(pixels, None, Preserve) == pixels
    ensures Gb7CurvesAsWritten(pixels, None, Preserve) == pixels
  {
    assert forall i :: 0 <= i < |pixels| ==> Gb7Curves(pixels, None, Preserve)[i] == pixels[i];
    assert forall i :: 0 <= i < |pixels| ==> Gb7CurvesAsWritten(pixels, None, Preserve)[i] == pixels[i];
  }

  /** Without a LUT every alpha mode keeps the luma bits; opaque sets and transparent clears every mask bit. */
  lemma {:induction false} AlphaModesKeepLuma(pixels: seq<byte>, mode: AlphaMode, i: nat)
    requires i < |pixels|
    ensures Gb7Curves(pixels, None, mode)[i] % 0x80 == pixels[i] % 0x80
    ensures mode == Opaque ==> Gb7Curves(pixels, None, mode)[i] >= 0x80
    ensures mode == Transparent ==> Gb7Curves(pixels, None, mode)[i] < 0x80
    ensures mode == Preserve ==> Gb7Curves(pixels, None, mode)[i] == pixels[i]
  {
    var b := pixels[i];
    assert Gb7Curves(pixels, None, mode)[i] == CurvedByte(b, b % 0x80, mode);
  }

  /**
   * The threshold rule on the luma after the curve: a pixel passes when its
   * luma is at least the threshold (below it, when inverted); replace keeps
   * the test, or adds it to the old mask, and (the default) intersects them.
   */
  lemma {:induction false} ThresholdRule(pixels: seq<byte>, yLut: Option<seq<byte>>, th: Option<real>,
                                        invert: bool, combine: Option<Combine>, i: nat)
    requires i < |pixels|
    ensures var b := pixels[i];
      var y := Luma(yLut, b % 0x80);
      var t := if th.Some? then th.value else 64.0;
      var pass := if invert then (y as real) < t else (y as real) >= t;
      var v := Gb7Curves(pixels, yLut, Threshold(th, invert, combine))[i];
      v % 0x80 == y
      && (combine == Some(Replace) ==> (v >= 0x80 <==> pass))
      && (combine == Some(Or) ==> (v >= 0x80 <==> b >= 0x80 || pass))
      && (combine != Some(Replace) && combine != Some(Or) ==> (v >= 0x80 <==> b >= 0x80 && pass))
  {
    var b := pixels[i];
    assert Gb7Curves(pixels, yLut, Threshold(th, invert, combine))[i]
        == CurvedByte(b, Luma(yLut, b % 0x80), Threshold(th, invert, combine));
  }

  /** With the corrected definition, the luma of every output byte is the table entry of the input luma. */
  lemma {:induction false} LumaFollowsTable(pixels: seq<byte>, t: seq<byte>, mode: AlphaMode, i: nat)
    requires i < |pixels| && |t| == 128 && forall v :: 0 <= v < 128 ==> t[v] <= 127
    ensures Gb7Curves(pixels, Some(t), mode)[i] % 0x80 == t[pixels[i] % 0x80]
  {
    var b := pixels[i];
    assert Gb7Curves(pixels, Some(t), mode)[i] == CurvedByte(b, Luma(Some(t), b % 0x80), mode);
  }

  /** The identity curve of a 0..127 table leaves GB7 pixels unchanged under preserve (corrected definition). */
  lemma {:induction false} DiagonalGb7CurveIsIdentity(pixels: seq<byte>, a: real, b: real)
    ensures Gb7Curves(pixels, Some(Lut(a, a, b, b, 127)), Preserve) == pixels
  {
    var t := Lut(a, a, b, b, 127);
    DiagonalIsIdentity(a, b, 127);
    forall i | 0 <= i < |pixels|
      ensures Gb7Curves(pixels, Some(t), Preserve)[i] == pixels[i]
    {
      var v := pixels[i];
      assert Luma(Some(t), v % 0x80) == v % 0x80;
      assert Gb7Curves(pixels, Some(t), Preserve)[i] == CurvedByte(v, v % 0x80, Preserve);
    }
  }

  /** As written, the identity curve of a 0..127 table halves every luma. */
  lemma {:induction false} AsWrittenDiagonalCurveHalvesLuma(pixels: seq<byte>, a: real, b: real)
    ensures var out := Gb7CurvesAsWritten(pixels, Some(Lut(a, a, b, b, 127)), Preserve);
      forall i :: 0 <= i < |pixels| ==> out[i] % 0x80 == (pixels[i] % 0x80) / 2 && (out[i] >= 0x80 <==> pixels[i] >= 0x80)
  {
    var t := Lut(a, a, b, b, 127);
    DiagonalIsIdentity(a, b, 127);
    forall i | 0 <= i < |pixels|
      ensures var out := Gb7CurvesAsWritten(pixels, Some(t), Preserve);
        out[i] % 0x80 == (pixels[i] % 0x80) / 2 && (out[i] >= 0x80 <==> pixels[i] >= 0x80)
    {
      var v := pixels[i];
      assert LumaAsWritten(Some(t), v % 0x80) == (v % 0x80) / 2;
      assert Gb7CurvesAsWritten(pixels, Some(t), Preserve)[i] == CurvedByte(v, (v % 0x80) / 2, Preserve);
    }
  }

  /** A white opaque GB7 pixel (0xFF) under the identity curve becomes 0xBF, mid grey, as written. */
  lemma AsWrittenWhiteBecomesGrey()
    ensures Gb7CurvesAsWritten([0xFF], Some(Lut(0.0, 0.0, 127.0, 127.0, 127)), Preserve) == [0xBF]
  {
    AsWrittenDiagonalCurveHalvesLuma([0xFF], 0.0, 127.0);
    var out := Gb7CurvesAsWritten([0xFF], Some(Lut(0.0, 0.0, 127.0, 127.0, 127)), Preserve);
    assert out[0] % 0x80 == 63 && out[0] >= 0x80;
  }
}
