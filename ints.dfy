/** The C integer widths the modelled code works with, and the conversions it relies on. */
module Ints {
  const TWO_8: int := 0x100
  const TWO_16: int := 0x1_0000
  const TWO_32: int := 0x1_0000_0000
  const TWO_64: int := 0x1_0000_0000_0000_0000

  newtype uint8 = x: int | 0 <= x < 0x100
  type int16 = x: int | -0x8000 <= x < 0x8000
  type uint32 = x: int | 0 <= x < 0x1_0000_0000
  type int32 = x: int | -0x8000_0000 <= x < 0x8000_0000
  type int64 = x: int | -0x8000_0000_0000_0000 <= x < 0x8000_0000_0000_0000

  /** Conversion of any integer to a two's-complement 16-bit value (a `(gint16)` cast). */
  function ToInt16(x: int): (r: int16)
    ensures (r - x) % TWO_16 == 0
    ensures -0x8000 <= x < 0x8000 ==> r == x
  {
    var m := x % TWO_16;
    if m < 0x8000 then m else m - TWO_16
  }

  /** Conversion of any integer to a two's-complement 32-bit value (a `(gint)` cast). */
  function ToInt32(x: int): (r: int32)
    ensures (r - x) % TWO_32 == 0
    ensures -0x8000_0000 <= x < 0x8000_0000 ==> r == x
  {
    var m := x % TWO_32;
    if m < 0x8000_0000 then m else m - TWO_32
  }

  /** Conversion of any integer to an unsigned 32-bit value (a `(guint)` cast). */
  function ToUInt32(x: int): (r: uint32)
    ensures (r - x) % TWO_32 == 0
    ensures 0 <= x < TWO_32 ==> r == x
  {
    x % TWO_32
  }

  /** Conversion of any integer to an unsigned 64-bit value (a `(size_t)` cast on LP64). */
  function ToUInt64(x: int): (r: nat)
    ensures r < TWO_64 && (r - x) % TWO_64 == 0
    ensures 0 <= x < TWO_64 ==> r == x
  {
    x % TWO_64
  }
}
