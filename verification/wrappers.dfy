/** Failure-compatible wrappers used throughout the model.
    - Option<T>: a value that may be absent (a missing dictionary key, a CSV cell
      that `csv.DictReader` filled with None).
    - Result<R, E>: a computation that either produces a value or stops with the
      error the Python script would raise.
 */
module Wrappers {

  datatype Option<+T> = None | Some(value: T)

  datatype Result<+R, +E> = Success(value: R) | Failure(error: E) {

    predicate IsFailure() {
      Failure?
    }

    function PropagateFailure<U>(): Result<U, E>
      requires Failure?
    {
      Failure(error)
    }

    function Extract(): R
      requires Success?
    {
      value
    }
  }
}
