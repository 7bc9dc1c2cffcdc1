/** Failure-compatible datatypes shared by every module of the model.
    Go's `(T, error)` pairs become `Result<T, E>`; a Go nil pointer, nil
    slice element or absent error becomes `None`. */
module Wrappers {

  /** A value that may be absent (a Go nil). */
  datatype Option<+T> = None | Some(value: T) {

    predicate IsFailure() {
      None?
    }

    function PropagateFailure<U>(): Option<U>
      requires None?
    {
      None
    }

    function Extract(): T
      requires Some?
    {
      value
    }
  }

  /** The outcome of a Go function returning `(T, error)`. */
  datatype Result<+T, +E> = Ok(value: T) | Err(error: E) {

    predicate IsFailure() {
      Err?
    }

    function PropagateFailure<U>(): Result<U, E>
      requires Err?
    {
      Err(error)
    }

    function Extract(): T
      requires Ok?
    {
      value
    }
  }
}
