/** Python's `None`: a function's `func_defaults` when it has no defaults, and `f`'s result on an unbound parameter. */
module Wrappers {

  datatype Option<+T> = None | Some(value: T) {

    /** `func_defaults` read with `None` as the empty tuple. */
    function GetOr(default: T): T {
      if Some? then value else default
    }
  }
}
