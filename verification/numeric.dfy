/**
 Fixed-width integer types of the Arduino target and the conversions
 between them that the event core relies on.
 */
module Numeric {

  /** An `unsigned char`. */
  newtype byte = x: int | 0 <= x < 256

  /** An `unsigned long`, the 32-bit type of the millisecond clock. */
  newtype u32 = x: int | 0 <= x < 0x1_0000_0000

  function Min(a: int, b: int): int
  {
    if a <= b then a else b
  }

  /** Storing an `int` into an `unsigned char`: the byte congruent to `x` modulo 256. */
  function Truncate(x: int): (b: byte)
    ensures (x - b as int) % 256 == 0
  {
    (x % 256) as byte
  }

  /** The value of the cast `(signed char) b`: the byte read as two's complement. */
  function Signed(b: byte): (d: int)
    ensures -128 <= d < 128
    ensures (d - b as int) % 256 == 0
  {
    if b < 128 then b as int else b as int - 256
  }

  /** Two's complement is a bijection between bytes and -128..127:
      a signed delta stored in a byte payload reads back unchanged. */
  lemma SignedRoundTrip(d: int)
    requires -128 <= d < 128
    ensures Signed(Truncate(d)) == d
  {
  }
}
