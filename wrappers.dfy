/** Optional values and error results, shared by the other modules. */
module Wrappers {

  /** A value that may be absent: a nullable pointer or an optional field. */
  datatype Option<+T> = None | Some(value: T) {

    /** The value if present, otherwise `default`. */
    function GetOr(default: T): T {
      match this
      case Some(v) => v
      case None => default
    }
  }

  /** Either a value or the error a call returned instead. */
  datatype Result<+T, +E> = Ok(value: T) | Err(error: E)
}
