/** Bounds of the fixed-width Rust integers the client uses. */
module Ints {

  const I32Min: int := -0x8000_0000
  const I32Max: int := 0x7fff_ffff
  const I64Min: int := -0x8000_0000_0000_0000
  const I64Max: int := 0x7fff_ffff_ffff_ffff

  /** Rust's `i32`: unit ids and unit counts. */
  type I32 = x: int | I32Min <= x <= I32Max
}
