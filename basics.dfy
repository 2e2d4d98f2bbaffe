/** Option and Result, the failure-compatible wrappers used throughout the model. */
module Basics {

  datatype Option<T> = None | Some(value: T)

  /** Either a value or the error the Python code would raise or exit with. */
  datatype Result<T, E> = Success(value: T) | Failure(error: E) {

    predicate IsFailure() {
      Failure?
    }

    function PropagateFailure<U>(): Result<U, E>
      requires Failure?
    {
      Failure(error)
    }

    function Extract(): T
      requires Success?
    {
      value
    }
  }
}
