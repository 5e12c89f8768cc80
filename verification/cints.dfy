/**
 * Fixed-width C++ integer types of the firmware (ESP32: `int` and `long` are 32 bits)
 * and the conversions `static_cast` performs between them.
 */
module CInts {

  type Byte = x: int | 0 <= x < 0x100
  type U16 = x: int | 0 <= x < 0x1_0000
  type U32 = x: int | 0 <= x < 0x1_0000_0000
  type I8 = x: int | -0x80 <= x < 0x80

  const INT32_MIN: int := -0x8000_0000
  const INT32_MAX: int := 0x7FFF_FFFF

  /** `static_cast<uint8_t>(x)`: the byte congruent to `x` modulo 256. */
  function ToU8(x: int): (r: Byte)
    ensures (x - r) % 0x100 == 0
    ensures 0 <= x < 0x100 ==> r == x
  {
    x % 0x100
  }

  /** `static_cast<uint16_t>(x)`: the 16-bit value congruent to `x` modulo 65536. */
  function ToU16(x: int): (r: U16)
    ensures (x - r) % 0x1_0000 == 0
    ensures 0 <= x < 0x1_0000 ==> r == x
  {
    x % 0x1_0000
  }

  /** `static_cast<int8_t>(x)`: two's-complement wrap into [-128, 127]. */
  function ToI8(x: int): (r: I8)
    ensures (x - r) % 0x100 == 0
    ensures -0x80 <= x < 0x80 ==> r == x
  {
    (x + 0x80) % 0x100 - 0x80
  }

  /** `uint32_t` subtraction `a - b`, which wraps around modulo 2^32. */
  function SubU32(a: U32, b: U32): (r: U32)
    ensures (r + b) % 0x1_0000_0000 == a
    ensures b <= a ==> r == a - b
    ensures a < b ==> r == a - b + 0x1_0000_0000
  {
    (a - b) % 0x1_0000_0000
  }
}
