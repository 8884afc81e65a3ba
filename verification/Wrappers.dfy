/** The optional value shared by every model; failing propagates through `:-`. */
module Wrappers {
  datatype Option<+T> = None | Some(value: T) {

    predicate IsFailure() { None? }

    function PropagateFailure<U>(): Option<U>
      requires None?
    {
      None
    }

    function Extract(): T
      requires Some?
    {
      value
    }
  }
}
