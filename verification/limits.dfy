/** The integer widths of a 64-bit Rust target. */
module Limits {
  /** 2^64: one past the largest `u64` (and `usize`). */
  const U64_LIMIT: int := 0x1_0000_0000_0000_0000

  /** The range of `isize`. */
  const ISIZE_MIN: int := -0x8000_0000_0000_0000
  const ISIZE_MAX: int := 0x7FFF_FFFF_FFFF_FFFF
}
