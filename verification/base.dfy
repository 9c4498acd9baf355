/** Machine-level vocabulary shared by the whole model: an optional value
    (the source's null pointers and compile-time "not available" cases) and
    the fixed-width integers of the ESP targets, with their wrap-around
    written out explicitly. */
module Base {

  /** A value that may be absent, used wherever the source tests a pointer
      against `nullptr` or a feature macro. */
  datatype Option<+T> = None | Some(value: T)

  const TWO_32: int := 0x1_0000_0000
  const TWO_31: int := 0x8000_0000

  /** `uint32_t`, and the 32-bit `size_t` of both ESP targets. */
  type uint32 = x: int | 0 <= x < 0x1_0000_0000

  /** C's `int`, 32 bits wide on both ESP targets. */
  type int32 = x: int | -0x8000_0000 <= x < 0x8000_0000

  /** `uint8_t`. */
  type byte = x: int | 0 <= x < 0x100

  /** The value an unsigned 32-bit C expression takes: reduction modulo 2^32. */
  function Wrap32(x: int): (r: uint32)
    ensures (x - r) % TWO_32 == 0
    ensures 0 <= x < TWO_32 ==> r == x
  {
    x % TWO_32
  }

  /** Conversion of a 32-bit pattern to a 32-bit `int` in two's complement,
      which is what the ESP toolchains do for an out-of-range conversion. */
  function ToInt32(x: uint32): (r: int32)
    ensures (x - r) % TWO_32 == 0
    ensures x < TWO_31 ==> r == x
  {
    if x < TWO_31 then x else x - TWO_32
  }
}
