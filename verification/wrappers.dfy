/** Failure-carrying results shared by every route model. */
module Wrappers {

  /** A value that may be absent: JavaScript `undefined`, a missing query
      parameter, or a cell past the end of a row. */
  datatype Option<+T> = None | Some(value: T)

  /** The outcome of an operation that can throw. */
  datatype Result<+T, +E> = Success(value: T) | Failure(error: E)
}
