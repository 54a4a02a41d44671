/** Failure-carrying values shared by the rest of the model. */
module Wrappers {

  /** A value that may be absent (a JavaScript `undefined`, or a `NaN` parse). */
  datatype Option<+T> = None | Some(value: T)

  /** The outcome of an operation that can throw: its value, or the error it raises. */
  datatype Result<+R, +E> = Success(value: R) | Failure(error: E)
}
