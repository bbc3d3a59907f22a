/** Result shapes and machine words shared by every part of the model. */
module Wrappers {

  datatype Option<+T> = None | Some(value: T)

  datatype Result<+T, +E> = Ok(value: T) | Err(error: E)

  /** 2^64: the number of values a `u64` takes. */
  const TWO_64: nat := 0x1_0000_0000_0000_0000

  /** 2^63: the first `u64` that a cast to `i64` turns negative. */
  const TWO_63: nat := 0x8000_0000_0000_0000

  type u64 = n: nat | n < TWO_64

  type i64 = n: int | 0 - TWO_63 <= n < TWO_63

  function Min(a: int, b: int): int {
    if a <= b then a else b
  }

  /** What stands in a list, repeats and order aside. */
  function Elements<T(==)>(s: seq<T>): set<T> {
    set x | x in s
  }

  /** `u64::saturating_add`. */
  function SaturatingAdd(a: u64, b: u64): u64 {
    if a + b < TWO_64 then a + b else TWO_64 - 1
  }

  /** `u64::saturating_sub`. */
  function SaturatingSub(a: u64, b: u64): u64 {
    if a >= b then a - b else 0
  }

  /** The cast `as i64` of a `u64`: the same 64 bits, read as two's complement. */
  function AsI64(n: u64): i64 {
    if n < TWO_63 then n else n - TWO_64
  }

  /** The cast `as u64` of an `i64`. */
  function AsU64(n: i64): u64 {
    if n >= 0 then n else n + TWO_64
  }
}
