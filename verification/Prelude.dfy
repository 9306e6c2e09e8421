/** Result types shared by every module. */
module Prelude {
  datatype Option<+T> = None | Some(value: T)

  datatype Result<+T, +E> = Ok(value: T) | Err(error: E)

  // A byte, and the byte strings that Go strings, BLOBs and TEXT cells are made of.
  type byte = b: int | 0 <= b < 256
  type Bytes = seq<byte>
}
