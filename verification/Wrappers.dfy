/** Failure-compatible datatypes shared by the models. */
module Wrappers {

  datatype Option<+T> = None | Some(value: T)

  datatype Result<+T, +E> = Success(value: T) | Failure(error: E) {
    predicate IsFailure() {
      Failure?
    }

    function PropagateFailure<U>(): Result<U, E>
      requires Failure?
    {
      Failure(error)
    }

    function Extract(): T
      requires Success?
    {
      value
    }
  }

  /** A call that either returns normally or leaves by exception. */
  datatype Outcome<+E> = Pass | Throw(error: E) {
    predicate IsFailure() {
      Throw?
    }

    function PropagateFailure(): Outcome<E>
      requires Throw?
    {
      this
    }
  }
}
