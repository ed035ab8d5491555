/** Failure-carrying result types shared by every module of the model. */
module Wrappers {

  /** A value that may be absent: JavaScript's `null` / `undefined`. */
  datatype Option<T> = None | Some(value: T)

  /** The outcome of an operation that may throw: `Ok` or the error it would throw. */
  datatype Result<T, E> = Ok(value: T) | Err(error: E)
}
