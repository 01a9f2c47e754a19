/** Fixed-width integer types of the prototype (src/ludwig/types/primitive.h) and the
    wrap-around their unsigned arithmetic performs. */
module Primitive {

  const U32_LIMIT: nat := 0x1_0000_0000
  const U64_LIMIT: nat := 0x1_0000_0000_0000_0000
  /** One past the largest value of a signed 32-bit `int`. */
  const I32_LIMIT: nat := 0x8000_0000

  type u32 = n: nat | n < U32_LIMIT
  type u64 = n: nat | n < U64_LIMIT

  /** The result of an unsigned 32-bit multiplication, `a * b` reduced modulo 2^32. */
  function MulU32(a: u32, b: u32): (r: u32)
    ensures a * b < U32_LIMIT ==> r == a * b
  {
    (a * b) % U32_LIMIT
  }

  /** The result of an unsigned 64-bit multiplication. */
  function MulU64(a: u64, b: u64): (r: u64)
    ensures a * b < U64_LIMIT ==> r == a * b
  {
    (a * b) % U64_LIMIT
  }
}
