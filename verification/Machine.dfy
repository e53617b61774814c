/** Signed machine integers: what is left of a value that does not fit. */
module Machine {

  const INT_MAX: int := 0x7FFF_FFFF
  const INT_MIN: int := -0x8000_0000
  const SHORT_MAX: int := 0x7FFF
  const SHORT_MIN: int := -0x8000

  /** The value as a 32-bit integer. */
  function Int32(v: int): (w: int)
    ensures INT_MIN <= w <= INT_MAX
    ensures INT_MIN <= v <= INT_MAX ==> w == v
    ensures (v - w) % 0x1_0000_0000 == 0
  {
    (v + 0x8000_0000) % 0x1_0000_0000 - 0x8000_0000
  }

  /** The value as a 16-bit integer. */
  function Int16(v: int): (w: int)
    ensures SHORT_MIN <= w <= SHORT_MAX
    ensures SHORT_MIN <= v <= SHORT_MAX ==> w == v
    ensures (v - w) % 0x1_0000 == 0
  {
    (v + 0x8000) % 0x1_0000 - 0x8000
  }

  type short = x: int | -0x8000 <= x <= 0x7FFF
}
