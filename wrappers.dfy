/** Option and Result, used for Go's nil values and for the panics of the
    registry, which the model turns into error values. */
module Wrappers {

  datatype Option<+T> = None | Some(value: T)

  datatype Result<+T, +E> = Success(value: T) | Failure(error: E)
}
