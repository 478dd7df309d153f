/** Option, Result and Outcome: the failure-compatible wrappers the model uses
    for values the source leaves `undefined` and for the errors it throws. */
module Wrappers {

  datatype Option<+T> = None | Some(value: T)

  datatype Result<+T, +E> = Ok(value: T) | Err(error: E) {
    predicate IsFailure() { Err? }

    function PropagateFailure<U>(): Result<U, E>
      requires Err?
    {
      Err(error)
    }

    function Extract(): T
      requires Ok?
    {
      value
    }
  }

  datatype Outcome<+E> = Pass | Fail(error: E) {
    predicate IsFailure() { Fail? }

    function PropagateFailure(): Outcome<E>
      requires Fail?
    {
      this
    }
  }
}
