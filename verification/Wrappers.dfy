/** Optional values, fallible results and machine integers. */
module Wrappers {
  type byte = b: int | 0 <= b < 256

  const U64_MAX := 0xFFFF_FFFF_FFFF_FFFF

  datatype Option<+T> = None | Some(value: T)

  datatype Result<+T, +E> = Ok(value: T) | Err(error: E)
}
