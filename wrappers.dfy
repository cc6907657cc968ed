/** Option and Result, the two wrapper types the model uses for Go's
    "value or nil" and "value or error" returns. */
module Wrappers {

  datatype Option<+T> = None | Some(value: T)

  datatype Result<+R, +E> = Success(value: R) | Failure(error: E)
}
