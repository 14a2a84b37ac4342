/** Optional values and results, as Rust's Option and Result. */
module Wrappers {

  datatype Option<+T> = None | Some(value: T)

  datatype Result<+T, +E> = Ok(value: T) | Err(error: E)
}
