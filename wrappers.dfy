/** Failure-compatible wrappers used for the error paths of the reader. */
module Wrappers {

  datatype Option<+T> = None | Some(value: T)

  /** The value of a computation, or the exception that ended it. */
  datatype Result<+T, +E> = Ok(value: T) | Err(error: E) {

    predicate IsFailure() {
      Err?
    }

    function PropagateFailure<U>(): Result<U, E>
      requires Err?
    {
      Err(error)
    }

    function Extract(): T
      requires Ok?
    {
      value
    }
  }
}
