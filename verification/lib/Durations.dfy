/**
 Go durations: signed 64-bit counts of nanoseconds, with the wrap-around of their
 arithmetic and the cut to whole seconds written out.
 */
module Durations {

  const SECOND := 1_000_000_000
  const TWO_63 := 0x8000_0000_0000_0000
  const TWO_62 := 0x4000_0000_0000_0000

  predicate IsInt64(x: int) {
    -TWO_63 <= x < TWO_63
  }

  /** Two's-complement wrap-around of an int64 result. */
  function Wrap64(x: int): (r: int)
    ensures IsInt64(r)
    ensures IsInt64(x) ==> r == x
  {
    (x + TWO_63) % (2 * TWO_63) - TWO_63
  }

  /** Go's integer division, which truncates toward zero. */
  function TruncDiv(a: int, b: int): int
    requires 0 < b
  {
    if a >= 0 then a / b else -((-a) / b)
  }

  /** The nanoseconds that reach a row when a duration is stored as `int32(d.Seconds())` seconds. */
  function Stored(d: int): (r: int)
    ensures d >= 0 ==> 0 <= r <= d < r + SECOND
    ensures d < 0 ==> r - SECOND < d <= r <= 0
  {
    TruncDiv(d, SECOND) * SECOND
  }

  function Min(a: int, b: int): int {
    if a <= b then a else b
  }

  /** Cutting to whole seconds keeps the order of two durations. */
  lemma StoredMonotone(a: int, b: int)
    requires a <= b
    ensures Stored(a) <= Stored(b)
  {
  }
}
