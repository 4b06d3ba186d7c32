/** Failure-compatible wrappers used throughout the model. An error is the
    text the Go code would carry in its `error` value. */
module Wrappers {

  type Error = string

  /** A value that may be absent: a nil pointer or a missing map entry. */
  datatype Option<+T> = None | Some(value: T)

  /** A value or the error that prevented computing it: Go's `(T, error)` pair. */
  datatype Result<+T> = Success(value: T) | Failure(error: Error) {

    predicate IsFailure() {
      Failure?
    }

    function PropagateFailure<U>(): Result<U>
      requires Failure?
    {
      Failure(error)
    }

    function Extract(): T
      requires Success?
    {
      value
    }
  }
}
