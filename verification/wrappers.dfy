/** The optional value used wherever the JavaScript code reads a property that
    may be `undefined` or looks a key up in a table that may not hold it. */
module Wrappers {

  datatype Option<+T> = None | Some(value: T) {

    /** The held value, or `fallback` when there is none. */
    function GetOr(fallback: T): T {
      match this
      case Some(v) => v
      case None => fallback
    }
  }
}
