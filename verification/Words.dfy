/** Fixed-width integers of the firmware, with the wrap-around of its unsigned subtraction and addition. */
module Words {
  const U32_SPAN := 0x1_0000_0000
  const U64_SPAN := 0x1_0000_0000_0000_0000

  type byte = n: int | 0 <= n < 0x100
  type uint16 = n: int | 0 <= n < 0x1_0000
  type uint32 = n: int | 0 <= n < U32_SPAN
  type uint64 = n: int | 0 <= n < U64_SPAN
  type int8 = n: int | -0x80 <= n < 0x80
  type int16 = n: int | -0x8000 <= n < 0x8000
  type int32 = n: int | -0x8000_0000 <= n < 0x8000_0000

  function Min(a: int, b: int): int {
    if a < b then a else b
  }

  function Add32(a: uint32, b: uint32): uint32 {
    if a + b < U32_SPAN then a + b else a + b - U32_SPAN
  }

  function Sub32(a: uint32, b: uint32): uint32 {
    if a >= b then a - b else a - b + U32_SPAN
  }

  function Sub64(a: uint64, b: uint64): uint64 {
    if a >= b then a - b else a - b + U64_SPAN
  }

  /** Two's complement reading of an unsigned 16-bit word. */
  function ToInt16(u: uint16): int16 {
    if u < 0x8000 then u else u - 0x1_0000
  }

  function ToInt8(b: byte): int8 {
    if b < 0x80 then b else b - 0x100
  }

  /** Addition and subtraction are those of the integers modulo 2^32 and 2^64, and each undoes the other. */
  lemma WrapAround(a: uint32, b: uint32, c: uint64, d: uint64)
    ensures Add32(a, b) == (a + b) % 0x1_0000_0000
    ensures Add32(Sub32(a, b), b) == a && Sub32(Add32(a, b), b) == a
    ensures a >= b ==> Sub32(a, b) == a - b
    ensures Sub64(c, d) == (c - d) % 0x1_0000_0000_0000_0000
  {
  }

  /** A signed reading is the value in its range that is congruent to the word. */
  lemma SignedReadings(u: uint16, b: byte, n: int16, m: int8)
    ensures ToInt16(u) == n <==> n % 0x1_0000 == u
    ensures ToInt8(b) == m <==> m % 0x100 == b
  {
  }
}
