/** Byte strings, results and the few sequence facts every other module uses. */
module Bytes {

  type byte = b: int | 0 <= b < 256

  type bit = b: int | 0 <= b < 2

  type uint64 = x: int | 0 <= x < 0x1_0000_0000_0000_0000

  datatype Option<+T> = None | Some(value: T)

  datatype Result<+T, +E> = Ok(value: T) | Err(error: E)
}
