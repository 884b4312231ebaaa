/** Failure-compatible result types used in place of the C++ exceptions. */
module Wrappers {

  datatype Option<T> = None | Some(value: T)

  /** A value or the error that aborted the computation. */
  datatype Result<T, E> = Ok(value: T) | Err(error: E) {
    predicate IsFailure() { Err? }

    function PropagateFailure<U>(): Result<U, E>
      requires Err?
    {
      Err(error)
    }

    function Extract(): T
      requires Ok?
    {
      value
    }
  }

  /** Success without a value, or the error that aborted the computation. */
  datatype Outcome<E> = Pass | Fail(error: E) {
    predicate IsFailure() { Fail? }

    function PropagateFailure(): Outcome<E>
      requires Fail?
    {
      this
    }
  }
}
