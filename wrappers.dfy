/** Option and Result, the two wrappers the model is written with. */
module Wrappers {

  datatype Option<+T> = None | Some(value: T)

  /** The outcome of an operation that can throw: a value, or the fault it throws. */
  datatype Result<+T, +E> = Success(value: T) | Failure(error: E)
}
