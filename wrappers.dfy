/** Optional values and fallible results shared by the other modules. */
module Wrappers {

  /** A value that may be absent, such as `process.env[key]` for a key that is not set. */
  datatype Option<T> = None | Some(value: T)

  /** The outcome of an operation that resolves to a value or fails with an error. */
  datatype Result<T, E> = Ok(value: T) | Err(error: E)
}
