/** Option and Result, the value-level form of the source's `throw`s. */
module Wrappers {

  datatype Option<+T> = None | Some(value: T)

  /** `Failure` carries the first failing check; `:-` propagates it. */
  datatype Result<+T, +E> = Success(value: T) | Failure(error: E) {

    predicate IsFailure() {
      Failure?
    }

    function PropagateFailure<U>(): Result<U, E>
      requires Failure?
    {
      Failure(error)
    }

    function Extract(): T
      requires Success?
    {
      value
    }
  }
}
