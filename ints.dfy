// The fixed-width integer ranges of the source, and how an integer is
// displayed. Arithmetic that leaves a range panics in a debug build, so
// callers are required to stay inside.
module Ints {
  const I32_MIN: int := -0x8000_0000
  const I32_MAX: int := 0x7fff_ffff
  const U32_MAX: int := 0xffff_ffff
  const I64_MIN: int := -0x8000_0000_0000_0000
  const I64_MAX: int := 0x7fff_ffff_ffff_ffff
  const U64_MAX: int := 0xffff_ffff_ffff_ffff

  predicate IsI32(x: int) { I32_MIN <= x <= I32_MAX }
  predicate IsU32(x: int) { 0 <= x <= U32_MAX }
  predicate IsI64(x: int) { I64_MIN <= x <= I64_MAX }
  predicate IsU64(x: int) { 0 <= x <= U64_MAX }

  function Digit(d: nat): char
    requires d < 10
  {
    "0123456789"[d]
  }

  /** Decimal text of an integer, as `{}` displays it. */
  function ShowInt(x: int): string
    decreases if x < 0 then -x + 1 else x
  {
    if x < 0 then "-" + ShowInt(-x)
    else if x < 10 then [Digit(x)]
    else ShowInt(x / 10) + [Digit(x % 10)]
  }
}
