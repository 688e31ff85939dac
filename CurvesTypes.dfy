/**
 * The curve editor's shared constants and clamps: graph sizes and the
 * round-then-clamp helpers for 8-bit channels and 7-bit GB7 luma.
 */
module CurvesTypes {
  import opened Common

  /** Graph sizes: one column and one row per representable value. */
  const W255: nat := 256
  const H255: nat := 256
  const W127: nat := 128
  const H127: nat := 128

  /** Math.max(0, Math.min(255, Math.round(v))): an 8-bit channel value. */
  function Clamp255(v: real): (r: int)
    ensures 0 <= r <= 255
    ensures v <= 0.0 ==> r == 0
    ensures v >= 255.0 ==> r == 255
    ensures 0.0 <= v <= 255.0 ==> v - 0.5 < r as real <= v + 0.5
  {
    ClampRound(v, 255)
  }

  /** Math.max(0, Math.min(127, Math.round(v))): a 7-bit GB7 luma value. */
  function Clamp127(v: real): (r: int)
    ensures 0 <= r <= 127
    ensures v <= 0.0 ==> r == 0
    ensures v >= 127.0 ==> r == 127
    ensures 0.0 <= v <= 127.0 ==> v - 0.5 < r as real <= v + 0.5
  {
    ClampRound(v, 127)
  }

  /** Each graph spans the domain 0..max, so its size is max + 1. */
  lemma GraphSizes()
    ensures W255 == H255 == 255 + 1
    ensures W127 == H127 == 127 + 1
  {
  }

  /** Both clamps leave an in-range integer as it is. */
  lemma ClampsFixInRange(n: int)
    ensures 0 <= n <= 255 ==> Clamp255(n as real) == n
    ensures 0 <= n <= 127 ==> Clamp127(n as real) == n
  {
  }

  /** Clamping twice is clamping once. */
  lemma ClampsIdempotent(v: real)
    ensures Clamp255(Clamp255(v) as real) == Clamp255(v)
    ensures Clamp127(Clamp127(v) as real) == Clamp127(v)
  {
    ClampsFixInRange(Clamp255(v));
    ClampsFixInRange(Clamp127(v));
  }

  /** Both clamps are monotone non-decreasing. */
  lemma ClampsMonotone(a: real, b: real)
    requires a <= b
    ensures Clamp255(a) <= Clamp255(b)
    ensures Clamp127(a) <= Clamp127(b)
  {
    RoundMonotone(a, b);
  }
}
