/** The optional value used where the program has `undefined`, `null`, NaN or an exception. */
module Wrappers {

  datatype Option<+T> = None | Some(value: T) {

    /** Whether the program would have failed here. */
    predicate IsFailure() {
      None?
    }

    /** What `:-` returns early. */
    function PropagateFailure<U>(): Option<U>
      requires None?
    {
      None
    }

    /** What `:-` binds otherwise. */
    function Extract(): T
      requires Some?
    {
      value
    }

    /** `??` */
    function GetOr(default: T): T {
      if Some? then value else default
    }
  }
}
