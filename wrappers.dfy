/** Option and Result values standing in for Go's nil pointers and `(value, error)` pairs. */
module Wrappers {

  datatype Option<+T> = None | Some(value: T)

  /** A Go `(value, error)` pair: either a value, or an error carrying its `Error()` text. */
  datatype Result<+T> = Success(value: T) | Failure(error: string)

}
