/** Bytes, the 32-bit time arithmetic of the firmware, and the result types shared by the modules. */
module Bytes {

  type byte = x: int | 0 <= x < 0x100

  const TWO_32: nat := 0x1_0000_0000

  datatype Option<+T> = None | Some(value: T)
}
