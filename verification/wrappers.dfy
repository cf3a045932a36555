/** Small failure-aware wrappers shared by the whole model. */
module Wrappers {

  /** A value that may be absent: JavaScript's `null` / `undefined` (and, where
      the engine treats it identically, `NaN`). */
  datatype Option<+T> = None | Some(value: T)

  /** The outcome of an operation that can throw: `Err` carries what would be
      thrown. */
  datatype Result<+T, +E> = Ok(value: T) | Err(error: E) {
    predicate IsFailure() { Err? }

    function PropagateFailure<U>(): Result<U, E>
      requires Err?
    {
      Err(error)
    }

    function Extract(): T
      requires Ok?
    {
      value
    }
  }
}
