/**
 Bytes and optional values, as every module uses them.
 */
module Basics {
  type byte = x: int | 0 <= x < 0x100

  datatype Option<+T> = None | Some(value: T)
}
