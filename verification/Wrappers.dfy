/** Failure-compatible results shared by the model. */
module Wrappers {

  /** A value that may be missing: a nil pointer, or a comma-ok result. */
  datatype Option<+T> = None | Some(value: T) {
    predicate IsFailure() { None? }

    function PropagateFailure<U>(): Option<U>
      requires None?
    {
      None
    }

    function Extract(): T
      requires Some?
    {
      value
    }
  }
}
