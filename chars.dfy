/** Unicode scalar values, the values of a Rust `char`. */
module Chars {
  import opened Wrappers

  const MAX_SCALAR_VALUE: int := 0x10FFFF
  const SURROGATE_LOW: int := 0xD800
  const SURROGATE_HIGH: int := 0xDFFF

  /** The largest value of a Rust `u32`. */
  const U32_MAX: int := 0xFFFF_FFFF

  /** A code point that is not a surrogate. */
  predicate IsScalarValue(n: int) {
    0 <= n <= MAX_SCALAR_VALUE && !(SURROGATE_LOW <= n <= SURROGATE_HIGH)
  }

  type Char = n: int | IsScalarValue(n)

  /** `char::from_u32`: the character with that code, if there is one. */
  function FromU32(n: nat): Option<Char>
    requires n <= U32_MAX
  {
    if IsScalarValue(n) then Some(n) else None
  }
}
