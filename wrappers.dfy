/** Optional values and error results shared by every module of the model. */
module Wrappers {

  /** A value that may be absent: JavaScript's `undefined`/`null` for an optional field. */
  datatype Option<+T> = None | Some(value: T) {

    /** The value, or `default` when absent. */
    function GetOr(default: T): T {
      match this
      case Some(v) => v
      case None => default
    }
  }

  /** The outcome of an operation that the source ends with an alert or a thrown error. */
  datatype Result<+R, +E> = Ok(value: R) | Err(error: E)
}
