/** Shared vocabulary of the model: an optional value, and the range of a
    signed 64-bit integer (Rust's `i64`). */
module Basics {

  /** A value that may be absent; used for searches that can come back empty
      and for arithmetic that can fail. */
  datatype Option<+T> = None | Some(value: T)

  const I64_MIN: int := -0x8000_0000_0000_0000
  const I64_MAX: int := 0x7FFF_FFFF_FFFF_FFFF

  /** x is in the range of Rust's `i64`. */
  predicate InI64(x: int) {
    I64_MIN <= x <= I64_MAX
  }

  /** Rust's `i64`: arithmetic outside this range is an overflow. */
  newtype i64 = x: int | InI64(x)
}
