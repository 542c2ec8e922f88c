/** Optional values (JavaScript `undefined`) and results of operations that can throw. */
module Wrappers {

  /** `None` stands for `undefined`. */
  datatype Option<+T> = None | Some(value: T) {
    /** `x ?? default` */
    function GetOr(default: T): T {
      match this
      case Some(v) => v
      case None => default
    }
  }

  /** `Err` stands for an exception thrown by the operation. */
  datatype Result<+T, +E> = Ok(value: T) | Err(error: E)
}
