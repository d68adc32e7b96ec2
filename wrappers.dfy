/** Small failure-compatible wrappers shared by the other modules. */
module Wrappers {

  /** A value that may be absent: C#'s `null` for a reference. */
  datatype Option<+T> = None | Some(value: T) {

    predicate IsFailure() {
      None?
    }

    function PropagateFailure<U>(): Option<U>
      requires None?
    {
      None
    }

    function Extract(): T
      requires Some?
    {
      value
    }
  }
}
