/** Optional and fallible values shared by the other modules. */
module Prelude {

  datatype Option<+T> = None | Some(value: T)

  /** A value, or the reason the operation was refused. */
  datatype Result<+T, +E> = Ok(value: T) | Err(error: E)
}
