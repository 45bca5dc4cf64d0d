/** Option and Result values standing for Python's `None` and for raised exceptions. */
module Wrappers {

  datatype Option<+T> = None | Some(value: T) {
    function GetOr(default: T): T {
      match this
      case Some(v) => v
      case None => default
    }
  }

  /** `Err` carries the message of the exception the source raises. */
  datatype Result<+T> = Ok(value: T) | Err(error: string)
}
