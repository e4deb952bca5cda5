/** Fixed-width machine integers of the parser and the wrap-around of their arithmetic.
    The parser keeps columns in `u16` and lines in `u32`; the source adds to and subtracts
    from columns with the plain `+`/`-` operators, which wrap in a release build. */
module Numeric {

  newtype u8 = x: int | 0 <= x < 0x100
  newtype u16 = x: int | 0 <= x < 0x1_0000
  newtype u32 = x: int | 0 <= x < 0x1_0000_0000

  /** `a + b` on `u16`, wrapping modulo 2^16. */
  function WrappingAdd(a: u16, b: u16): (r: u16)
    ensures a as int + b as int < 0x1_0000 ==> r as int == a as int + b as int
    ensures a as int + b as int >= 0x1_0000 ==> r as int == a as int + b as int - 0x1_0000
  {
    ((a as int + b as int) % 0x1_0000) as u16
  }

  /** `a - b` on `u16`, wrapping modulo 2^16. */
  function WrappingSub(a: u16, b: u16): (r: u16)
    ensures b <= a ==> r as int == a as int - b as int
    ensures a < b ==> r as int == 0x1_0000 - (b as int - a as int)
  {
    ((a as int - b as int) % 0x1_0000) as u16
  }
}
