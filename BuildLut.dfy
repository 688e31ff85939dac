/**
 * buildLUT: a tone curve as a look-up table of max + 1 entries. The curve is
 * the polyline (0, 0) - (x1, y1) - (x2, y2) - (max, max) through two control
 * points rounded and clamped to [0, max] (and swapped when given right to
 * left); each entry is the polyline's value rounded and clamped again.
 */
module BuildLut {
  import opened Common

  /** The control points after clamping and ordering: kx1 <= kx2, all in [0, max]. */
  datatype Knots = Knots(kx1: int, ky1: int, kx2: int, ky2: int)

  predicate KnotsIn(k: Knots, max: int)
  {
    0 <= k.kx1 <= k.kx2 <= max && 0 <= k.ky1 <= max && 0 <= k.ky2 <= max
  }

  function NormalizeKnots(x1: real, y1: real, x2: real, y2: real, max: int): (k: Knots)
    requires max >= 0
    ensures KnotsIn(k, max)
    ensures {k.kx1, k.kx2} == {ClampRound(x1, max), ClampRound(x2, max)}
    ensures ClampRound(x1, max) <= ClampRound(x2, max) ==>
      k == Knots(ClampRound(x1, max), ClampRound(y1, max), ClampRound(x2, max), ClampRound(y2, max))
    ensures ClampRound(x1, max) > ClampRound(x2, max) ==>
      k == Knots(ClampRound(x2, max), ClampRound(y2, max), ClampRound(x1, max), ClampRound(y1, max))
  {
    var a1, a2 := ClampRound(x1, max), ClampRound(x2, max);
    var b1, b2 := ClampRound(y1, max), ClampRound(y2, max);
    if a1 > a2 then Knots(a2, b2, a1, b1) else Knots(a1, b1, a2, b2)
  }

  function Lerp(a: real, b: real, t: real): real
  {
    a + (b - a) * t
  }

  /** The value at x of the segment from (x0, y0) to (x1, y1); y1 when the segment is vertical. */
  function Seg(x: real, x0: real, y0: real, x1: real, y1: real): real
  {
    if x1 == x0 then y1 else Lerp(y0, y1, (x - x0) / (x1 - x0))
  }

  /** The polyline at integer abscissa x. */
  function CurveAt(k: Knots, max: int, x: int): real
  {
    if x <= k.kx1 then Seg(x as real, 0.0, 0.0, k.kx1 as real, k.ky1 as real)
    else if x <= k.kx2 then Seg(x as real, k.kx1 as real, k.ky1 as real, k.kx2 as real, k.ky2 as real)
    else Seg(x as real, k.kx2 as real, k.ky2 as real, max as real, max as real)
  }

  /** The table buildLUT returns. */
  function Lut(x1: real, y1: real, x2: real, y2: real, max: int): (lut: seq<byte>)
    requires 0 <= max <= 255
    ensures |lut| == max + 1
    ensures forall x :: 0 <= x <= max ==> lut[x] <= max
  {
    var k := NormalizeKnots(x1, y1, x2, y2, max);
    seq(max + 1, x requires 0 <= x <= max => ClampRound(CurveAt(k, max, x), max))
  }

  /** buildLUT(x1, y1, x2, y2, max). */
  method BuildLut(x1: real, y1: real, x2: real, y2: real, max: int) returns (lut: seq<byte>)
    requires 0 <= max <= 255
    ensures lut == Lut(x1, y1, x2, y2, max)
  {
    var k1, k2 := ClampRound(x1, max), ClampRound(x2, max);
    var v1, v2 := ClampRound(y1, max), ClampRound(y2, max);
    if k1 > k2 {
      k1, k2 := k2, k1;
      v1, v2 := v2, v1;
    }
    ghost var k := Knots(k1, v1, k2, v2);
    assert k == NormalizeKnots(x1, y1, x2, y2, max);
    var a := new byte[max + 1];
    for x := 0 to max + 1
      invariant forall i :: 0 <= i < x ==> a[i] == ClampRound(CurveAt(k, max, i), max)
    {
      var y: real;
      if x <= k1 {
        y := Seg(x as real, 0.0, 0.0, k1 as real, v1 as real);
      } else if x <= k2 {
        y := Seg(x as real, k1 as real, v1 as real, k2 as real, v2 as real);
      } else {
        y := Seg(x as real, k2 as real, v2 as real, max as real, max as real);
      }
      a[x] := ClampRound(y, max);
    }
    lut := a[..];
  }

  // ---------------------------------------------------------------------
  // Segments

  lemma QuotientInUnit(n: real, d: real)
    requires 0.0 <= n <= d && d > 0.0
    ensures 0.0 <= n / d <= 1.0
  {
  }

  /** On a rising segment the value stays between the endpoint values. */
  lemma SegBetween(x: real, x0: real, y0: real, x1: real, y1: real)
    requires x0 <= x <= x1 && y0 <= y1
    ensures y0 <= Seg(x, x0, y0, x1, y1) <= y1
  {
    if x1 != x0 {
      var t := (x - x0) / (x1 - x0);
      QuotientInUnit(x - x0, x1 - x0);
      ScaleBelow(y1 - y0, t);
    }
  }

  /** A rising segment is non-decreasing. */
  lemma SegMonotone(x: real, x': real, x0: real, y0: real, x1: real, y1: real)
    requires x0 <= x <= x' <= x1 && y0 <= y1
    ensures Seg(x, x0, y0, x1, y1) <= Seg(x', x0, y0, x1, y1)
  {
    if x1 != x0 {
      var t, t' := (x - x0) / (x1 - x0), (x' - x0) / (x1 - x0);
      assert t <= t';
      assert (y1 - y0) * t <= (y1 - y0) * t';
    }
  }

  /** A segment of the diagonal is the diagonal. */
  lemma SegDiagonal(x: real, x0: real, x1: real)
    ensures Seg(x, x0, x0, x1, x1) == (if x1 == x0 then x1 else x)
  {
    if x1 != x0 {
      assert (x1 - x0) * ((x - x0) / (x1 - x0)) == x - x0;
    }
  }

  /** A segment takes its right endpoint's value there. */
  lemma SegAtEnd(x0: real, y0: real, x1: real, y1: real)
    ensures Seg(x1, x0, y0, x1, y1) == y1
  {
  }

  /** A non-vertical segment takes its left endpoint's value there. */
  lemma SegAtStart(x0: real, y0: real, x1: real, y1: real)
    requires x0 != x1
    ensures Seg(x0, x0, y0, x1, y1) == y0
  {
  }

  // ---------------------------------------------------------------------
  // Properties of the table

  /** Control points on the diagonal give the identity table. */
  lemma {:induction false} DiagonalIsIdentity(a: real, b: real, max: int)
    requires 0 <= max <= 255
    ensures forall x :: 0 <= x <= max ==> Lut(a, a, b, b, max)[x] == x
  {
    var k := NormalizeKnots(a, a, b, b, max);
    assert k.kx1 == k.ky1 && k.kx2 == k.ky2;
    forall x | 0 <= x <= max
      ensures Lut(a, a, b, b, max)[x] == x
    {
      if x <= k.kx1 {
        SegDiagonal(x as real, 0.0, k.kx1 as real);
      } else if x <= k.kx2 {
        SegDiagonal(x as real, k.kx1 as real, k.kx2 as real);
      } else {
        SegDiagonal(x as real, k.kx2 as real, max as real);
      }
      RoundOfInt(x);
    }
  }

  /**
   * The table passes through the control points and the corners: at kx1 it
   * is ky1; at kx2 it is ky2 unless both control points share one abscissa
   * (then the first wins); at 0 it is 0 unless kx1 is 0; at max it is max
   * unless kx2 is max.
   */
  lemma {:induction false} PassesThroughKnots(x1: real, y1: real, x2: real, y2: real, max: int)
    requires 0 <= max <= 255
    ensures var k := NormalizeKnots(x1, y1, x2, y2, max);
      var lut := Lut(x1, y1, x2, y2, max);
      lut[k.kx1] == k.ky1
      && lut[k.kx2] == (if k.kx1 == k.kx2 then k.ky1 else k.ky2)
      && lut[0] == (if k.kx1 == 0 then k.ky1 else 0)
      && lut[max] == (if k.kx2 < max then max else if k.kx1 == max then k.ky1 else k.ky2)
  {
    var k := NormalizeKnots(x1, y1, x2, y2, max);
    SegAtEnd(0.0, 0.0, k.kx1 as real, k.ky1 as real);
    SegAtEnd(k.kx1 as real, k.ky1 as real, k.kx2 as real, k.ky2 as real);
    SegAtEnd(k.kx2 as real, k.ky2 as real, max as real, max as real);
    if k.kx1 != 0 {
      SegAtStart(0.0, 0.0, k.kx1 as real, k.ky1 as real);
    }
    RoundOfInt(0);
    RoundOfInt(max);
    RoundOfInt(k.ky1);
    RoundOfInt(k.ky2);
  }

  /** Giving the control points in the other order builds the same table, unless they share an abscissa. */
  lemma ControlPointOrder(x1: real, y1: real, x2: real, y2: real, max: int)
    requires 0 <= max <= 255
    requires ClampRound(x1, max) != ClampRound(x2, max)
    ensures Lut(x1, y1, x2, y2, max) == Lut(x2, y2, x1, y1, max)
  {
    assert NormalizeKnots(x1, y1, x2, y2, max) == NormalizeKnots(x2, y2, x1, y1, max);
  }

  /** With a non-decreasing control polyline, the curve is non-decreasing on [0, max]. */
  lemma {:induction false} CurveMonotone(k: Knots, max: int, x: int, x': int)
    requires KnotsIn(k, max) && k.ky1 <= k.ky2
    requires 0 <= x <= x' <= max
    ensures CurveAt(k, max, x) <= CurveAt(k, max, x')
  {
    var a1, b1, a2, b2, m := k.kx1 as real, k.ky1 as real, k.kx2 as real, k.ky2 as real, max as real;
    var r, r' := x as real, x' as real;
    if x' <= k.kx1 {
      SegMonotone(r, r', 0.0, 0.0, a1, b1);
    } else if x' <= k.kx2 {
      if x <= k.kx1 {
        SegBetween(r, 0.0, 0.0, a1, b1);
        SegBetween(r', a1, b1, a2, b2);
      } else {
        SegMonotone(r, r', a1, b1, a2, b2);
      }
    } else {
      if x <= k.kx1 {
        SegBetween(r, 0.0, 0.0, a1, b1);
        SegBetween(r', a2, b2, m, m);
      } else if x <= k.kx2 {
        SegBetween(r, a1, b1, a2, b2);
        SegBetween(r', a2, b2, m, m);
      } else {
        SegMonotone(r, r', a2, b2, m, m);
      }
    }
  }

  /** When the ordered control points rise, the whole table is non-decreasing. */
  lemma {:induction false} LutMonotone(x1: real, y1: real, x2: real, y2: real, max: int)
    requires 0 <= max <= 255
    requires NormalizeKnots(x1, y1, x2, y2, max).ky1 <= NormalizeKnots(x1, y1, x2, y2, max).ky2
    ensures var lut := Lut(x1, y1, x2, y2, max);
      forall i, j :: 0 <= i <= j <= max ==> lut[i] <= lut[j]
  {
    var k := NormalizeKnots(x1, y1, x2, y2, max);
    var lut := Lut(x1, y1, x2, y2, max);
    forall i, j | 0 <= i <= j <= max
      ensures lut[i] <= lut[j]
    {
      CurveMonotone(k, max, i, j);
      RoundMonotone(CurveAt(k, max, i), CurveAt(k, max, j));
    }
  }
}
