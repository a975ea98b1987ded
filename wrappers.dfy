/** Failure-carrying values: an `Option` for a Python `None` return, a `Result` for a raised exception. */
module Wrappers {

  datatype Option<+T> = None | Some(value: T)

  /** `Failure` stands for a Python exception that propagates to the caller. */
  datatype Result<+T, +E> = Success(value: T) | Failure(error: E)
  {
    predicate IsFailure() { Failure? }
  }
}
