/** Failure-carrying values shared by the model: an optional value and a
    value-or-error result. */
module Wrappers {

  datatype Option<+T> = None | Some(value: T)

  datatype Result<+R, +E> = Success(value: R) | Failure(error: E)
}
