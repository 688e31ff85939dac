/**
 * Shared vocabulary of the pixel engine: bytes, optional values, JavaScript's
 * rounding on exact reals, and the index arithmetic of flat RGBA buffers.
 */
module Common {

  /** One element of a Uint8Array or Uint8ClampedArray. */
  type byte = x: int | 0 <= x < 256

  datatype Option<+T> = None | Some(value: T)

  function Min(a: int, b: int): int { if a <= b then a else b }

  function Max(a: int, b: int): int { if a >= b then a else b }

  /** Math.round on an exact real: the nearest integer, halves toward +infinity. */
  function Round(v: real): (r: int)
    ensures v - 0.5 < r as real <= v + 0.5
  {
    (v + 0.5).Floor
  }

  /** Math.max(0, Math.min(hi, Math.round(v))). */
  function ClampRound(v: real, hi: int): (r: int)
    requires hi >= 0
    ensures 0 <= r <= hi
    ensures 0.0 <= v <= hi as real ==> r == Round(v)
  {
    Max(0, Min(hi, Round(v)))
  }

  /**
   * The store of a finite number into a Uint8ClampedArray (ToUint8Clamp):
   * clamp to [0, 255], then round to the nearest integer, halves to even.
   */
  function ClampedStore(v: real): (r: byte)
    ensures v <= 0.0 ==> r == 0
    ensures v >= 255.0 ==> r == 255
    ensures 0.0 <= v <= 255.0 ==> v - 0.5 <= r as real <= v + 0.5
    ensures 0.0 < v < 255.0 && v == v.Floor as real + 0.5 ==> r % 2 == 0
  {
    if v <= 0.0 then 0
    else if v >= 255.0 then 255
    else
      var f := v.Floor;
      if f as real + 0.5 < v then f + 1
      else if v < f as real + 0.5 then f
      else if f % 2 == 0 then f else f + 1
  }

  lemma RoundOfInt(n: int)
    ensures Round(n as real) == n
  {
  }

  lemma RoundMonotone(a: real, b: real)
    requires a <= b
    ensures Round(a) <= Round(b)
  {
  }

  /** A value between two integers rounds to a value between them. */
  lemma RoundBetween(v: real, lo: int, hi: int)
    requires lo as real <= v <= hi as real
    ensures lo <= Round(v) <= hi
  {
    RoundMonotone(lo as real, v);
    RoundMonotone(v, hi as real);
    RoundOfInt(lo);
    RoundOfInt(hi);
  }

  lemma ClampedStoreOfInt(n: int)
    requires 0 <= n <= 255
    ensures ClampedStore(n as real) == n
  {
  }

  lemma ClampedStoreBetween(v: real, lo: int, hi: int)
    requires 0 <= lo <= hi <= 255
    requires lo as real <= v <= hi as real
    ensures lo <= ClampedStore(v) <= hi
  {
  }

  // ---------------------------------------------------------------------
  // Index arithmetic of row-major, four-bytes-per-pixel buffers

  lemma MulMonotone(a: int, b: int, w: int)
    requires a <= b && w >= 0
    ensures a * w <= b * w
  {
    assert b * w - a * w == (b - a) * w;
  }

  /** MulMonotone as an implication, for use where a <= b is what is being refuted. */
  lemma MulLe(a: int, b: int, w: int)
    requires w >= 0
    ensures a <= b ==> a * w <= b * w
  {
    if a <= b {
      MulMonotone(a, b, w);
    }
  }

  /** A pixel (x, y) of a w-by-h image has a linear index below w*h. */
  lemma PixelInBounds(x: int, y: int, w: int, h: int)
    requires 0 <= x < w && 0 <= y < h
    ensures 0 <= y * w + x < w * h
  {
    MulMonotone(0, y, w);
    MulMonotone(y + 1, h, w);
    assert (y + 1) * w == y * w + w;
    assert h * w == w * h;
  }

  /** The linear index y*w + x decomposes back into (x, y). */
  lemma PixelCoords(x: int, y: int, w: int)
    requires 0 <= x < w && 0 <= y
    ensures (y * w + x) / w == y && (y * w + x) % w == x
  {
    var p := y * w + x;
    var q, r := p / w, p % w;
    assert p == q * w + r && 0 <= r < w;
    assert (q + 1) * w == q * w + w;
    assert (y + 1) * w == y * w + w;
    MulLe(q + 1, y, w);
    MulLe(y + 1, q, w);
  }

  /** A linear pixel index below w*h has a row below h. */
  lemma RowInBounds(p: int, w: int, h: int)
    requires 0 <= p < w * h && w > 0
    ensures 0 <= p / w < h && 0 <= p % w < w
  {
    var q := p / w;
    assert p == q * w + p % w;
    assert h * w == w * h;
    MulLe(q, -1, w);
    MulLe(h, q, w);
  }

  /** Byte k of a four-channel buffer is channel k % 4 of pixel k / 4. */
  lemma ChannelIndex(p: int, c: int)
    requires 0 <= p && 0 <= c < 4
    ensures (p * 4 + c) / 4 == p && (p * 4 + c) % 4 == c
  {
  }

  /** Stepping through a buffer four bytes at a time: a start offset below the end leaves a whole pixel. */
  lemma WholePixelLeft(i: int, n: int)
    requires 0 <= i < n && i % 4 == 0 && n % 4 == 0
    ensures i + 4 <= n
  {
  }

  /** Integer division by a positive divisor stays below b when the dividend is below b*d. */
  lemma DivBelow(a: int, b: int, d: int)
    requires 0 <= a < b * d && d > 0
    ensures 0 <= a / d < b
  {
    var q := a / d;
    assert a == q * d + a % d;
    MulLe(b, q, d);
    MulLe(q, -1, d);
  }

  /** Floor of x*s/d stays below s for x < d. */
  lemma ScaledIndexBelow(x: int, s: int, d: int)
    requires 0 <= x < d && s > 0
    ensures 0 <= (x * s) / d < s
  {
    MulMonotone(x, d - 1, s);
    assert (d - 1) * s == s * d - s;
    MulMonotone(0, x, s);
    DivBelow(x * s, s, d);
  }

  /** Byte c of pixel (x, y) in a w-by-h buffer. */
  lemma ByteIndex(x: int, y: int, w: int, h: int, c: nat)
    requires 0 <= x < w && 0 <= y < h && c < 4
    ensures var i := (y * w + x) * 4 + c;
      0 <= i < w * h * 4 && i % 4 == c && i / 4 == y * w + x
      && (i / 4) % w == x && (i / 4) / w == y
  {
    PixelInBounds(x, y, w, h);
    PixelCoords(x, y, w);
    ChannelIndex(y * w + x, c);
    MulMonotone(y * w + x, w * h - 1, 4);
  }

  /** Floor of an exact quotient is integer division. */
  lemma FloorOfQuotient(n: int, d: int)
    requires d > 0
    ensures ((n as real) / (d as real)).Floor == n / d
  {
    var q, r := n / d, n % d;
    assert n == q * d + r && 0 <= r < d;
    assert (n as real) / (d as real) == q as real + (r as real) / (d as real);
    assert 0.0 <= (r as real) / (d as real) < 1.0;
  }

  /** A non-negative value scaled by a weight in [0, 1] stays between 0 and itself. */
  lemma ScaleBelow(c: real, t: real)
    requires c >= 0.0 && 0.0 <= t <= 1.0
    ensures 0.0 <= c * t <= c
  {
    assert c - c * t == c * (1.0 - t);
  }
}
