/** Option and Result values used wherever the scripts return "nothing" or raise. */
module Wrappers {

  datatype Option<+T> = None | Some(value: T) {
    function GetOr(default: T): T {
      match this
      case Some(v) => v
      case None => default
    }
  }

  /** The outcome of a call that may raise; `Err` carries the exception text `str(e)`. */
  datatype Result<+T> = Ok(value: T) | Err(message: string)
}
