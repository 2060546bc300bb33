/** Failure-carrying datatypes used throughout the model: Go's `(value, error)`
    pairs become `Result`, optional values become `Option`. */
module Wrappers {

  datatype Option<+T> = None | Some(value: T)

  datatype Result<+R, +E> = Success(value: R) | Failure(error: E)
}
