/** Optional values and results with an error, shared by the board modules. */
module Wrappers {

  /** A value that may be absent (JavaScript's `null` / `undefined`). */
  datatype Option<+T> = None | Some(value: T)

  /** The outcome of an operation that may throw instead of producing a value. */
  datatype Result<+R, +E> = Success(value: R) | Failure(error: E)
}
