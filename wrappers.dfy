/** The failure-carrying datatypes the routes use for absent values and error replies. */
module Wrappers {

  /** A value that may be absent: JavaScript's `undefined`/`null`, or an absent query parameter. */
  datatype Option<+T> = None | Some(value: T) {
    function GetOr(default: T): T {
      match this
      case Some(v) => v
      case None => default
    }
  }

  /** Either a value or an error. */
  datatype Result<+T, +E> = Ok(value: T) | Err(error: E)
}
