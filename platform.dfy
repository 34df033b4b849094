/** Integer widths of the 8-bit AVR target the firmware runs on. */
module Avr {
  /** int: 16 bits. */
  type Int16 = x: int | -0x8000 <= x <= 0x7FFF

  /** unsigned int: 16 bits; UINT_MAX is its largest value. */
  const UIntMax: int := 0xFFFF

  /** The implicit conversion of an int to unsigned int, as in a comparison
      with an unsigned operand: the value modulo 2^16. */
  function AsUInt16(x: Int16): (u: int)
    ensures 0 <= u <= UIntMax && (u - x) % (UIntMax + 1) == 0
    ensures x <= u && (0 <= x ==> u == x)
  {
    if x < 0 then x + (UIntMax + 1) else x
  }

  /** long: 32 bits. */
  type Int32 = x: int | -0x8000_0000 <= x <= 0x7FFF_FFFF

  /** unsigned long: 32 bits; ULONG_MAX is its largest value. */
  const ULongMax: int := 0xFFFF_FFFF
  type ULong = x: int | 0 <= x <= ULongMax
}
