/** Failure-carrying datatypes shared by the model: `Option` for lookups
    that may find nothing, `Result` for an operation whose exception
    escapes to its caller. */
module Wrappers {

  datatype Option<+T> = None | Some(value: T)

  datatype Result<+R, +E> = Success(value: R) | Failure(error: E)
}
