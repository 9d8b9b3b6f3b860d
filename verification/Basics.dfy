/** What every other module shares. */
module Basics {
  datatype Option<+T> = None | Some(value: T)

  newtype Byte = n: int | 0 <= n < 256

  /** Lengths, generations, ordinals and counters are 64-bit. */
  const U64_MAX: nat := 0xFFFF_FFFF_FFFF_FFFF
}
