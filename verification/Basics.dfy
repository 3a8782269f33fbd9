/** What the modules of this project have in common. */
module Basics {

  type Byte = b: int | 0 <= b < 256

  /** Go's uint64 arithmetic wraps at this modulus. */
  const U64: nat := 0x1_0000_0000_0000_0000

  /** Go's int is 64 bits wide: larger results of an addition turn negative. */
  const I63: nat := 0x8000_0000_0000_0000

  datatype Option<+T> = None | Some(value: T)
}
