/** The wrappers used across the model: an optional value and a value-or-error
    result. */
module Wrappers {

  /** A value that may be absent: an XML attribute that is not there, a node
      without leading text. */
  datatype Option<+T> = None | Some(value: T)

  /** Either a value or the error that replaced it. */
  datatype Result<+R, +E> = Success(value: R) | Failure(error: E)
}
