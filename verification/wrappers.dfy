/** Option and Result, used wherever the Python code returns None or raises. */
module Wrappers {

  datatype Option<+T> = None | Some(value: T) {
    function GetOr(default: T): T {
      match this
      case Some(v) => v
      case None => default
    }
  }

  /** `Failure` carries the text `str(e)` of the exception the Python code raises. */
  datatype Result<+R> = Success(value: R) | Failure(error: string)
}
