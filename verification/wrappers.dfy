/** A value that may be missing, and the outcome of something that may fail. */
module Wrappers {
  datatype Option<T> = None | Some(value: T)
  datatype Result<T> = Ok(value: T) | Err
}
