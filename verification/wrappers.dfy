/** Failure-compatible wrapper types shared by the other modules. */
module Wrappers {

  /** A value that may be absent: JavaScript's `null`/`undefined` lookups. */
  datatype Option<+T> = None | Some(value: T)

  /** Either a computed value or the message the program logs instead. */
  datatype Result<+R, +E> = Success(value: R) | Failure(error: E)
}
