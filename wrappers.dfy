/** Failure-compatible wrapper types used by every stage of the query engine. */
module Wrappers {

  /** An optional value, Python's `None` or a value. */
  datatype Option<+T> = None | Some(value: T) {
    function GetOr(default: T): T
    {
      match this
      case Some(v) => v
      case None => default
    }
  }

  /** The outcome of a stage that can fail, usable with `:-`. */
  datatype Result<+R, +E> = Ok(value: R) | Err(error: E) {
    predicate IsFailure()
    {
      Err?
    }

    function PropagateFailure<U>(): Result<U, E>
      requires Err?
    {
      Err(error)
    }

    function Extract(): R
      requires Ok?
    {
      value
    }
  }
}
