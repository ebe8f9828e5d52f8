/** Shared result types. */
module Wrappers {

  /** Usable with `:-`: a None ends the enclosing function with None. */
  datatype Option<+T> = None | Some(value: T) {

    predicate IsFailure() { None? }

    function PropagateFailure<U>(): Option<U>
      requires None?
    {
      None
    }

    function Extract(): T
      requires Some?
    {
      value
    }
  }

  datatype Result<+T, +E> = Ok(value: T) | Err(error: E)
}
