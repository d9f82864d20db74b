/** The optional-value datatype used wherever the storefront has `undefined`,
    a failed regular-expression match or a `NaN`. */
module Wrappers {

  datatype Option<+T> = None | Some(value: T) {

    /** JavaScript's `x || fallback` for a value whose only falsy form is the
        missing one. */
    function GetOr(fallback: T): T {
      if Some? then value else fallback
    }
  }
}
