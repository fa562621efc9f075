/** Failure-compatible result types, and the byte, shared by the other modules. */
module Wrappers {

  datatype Option<+T> = None | Some(value: T)

  datatype Result<+T, +E> = Ok(value: T) | Err(error: E) {
    predicate IsFailure() {
      Err?
    }

    function PropagateFailure<U>(): (r: Result<U, E>)
      requires Err?
    {
      Err(error)
    }

    function Extract(): (t: T)
      requires Ok?
    {
      value
    }
  }

  /** A value that is never inspected: the `()` of a check that only passes or fails. */
  datatype Unit = Unit

  type byte = x: int | 0 <= x < 256
}
