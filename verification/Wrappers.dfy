/** The two failure-compatible datatypes every other module uses. */
module Wrappers {

  datatype Option<+T> = None | Some(value: T)

  /** A Python exception or a Go error return is a `Failure`. */
  datatype Result<+T, +E> = Success(value: T) | Failure(error: E) {
    predicate IsFailure() { Failure? }

    function PropagateFailure<U>(): (r: Result<U, E>)
      requires Failure?
    {
      Failure(error)
    }

    function Extract(): T
      requires Success?
    {
      value
    }
  }
}
