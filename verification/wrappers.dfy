/** The optional value and the success-or-error result that the modules of this model share. */
module Wrappers {

  /** An optional value: a `<title>` tag that may be absent, a search that may miss. */
  datatype Option<+T> = None | Some(value: T) {

    /** The held value, or `default` when there is none. */
    function GetOr(default: T): T {
      match this
      case Some(v) => v
      case None => default
    }
  }

  /** The errors the modelled code can raise. */
  datatype Error =
    | EmptySeparator   // Python's `str.split` refuses an empty separator

  /** A computation that either succeeds with a value or raises an `Error`. */
  datatype Result<+R> = Success(value: R) | Failure(error: Error)
}
