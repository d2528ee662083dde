/** Optional values and failure-carrying results, used throughout the model. */
module Wrappers {

  /** A value that may be absent: a JSON field that is `undefined`, a nullable date. */
  datatype Option<+T> = None | Some(value: T)

  /** The outcome of an operation that fails with an error value. */
  datatype Result<+T, +E> = Success(value: T) | Failure(error: E)
}
