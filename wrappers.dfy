/** Option and Result: the `None`/`null`/`undefined` values and the raised
    exceptions of the modelled Python and JavaScript code. */
module Wrappers {

  datatype Option<+T> = None | Some(value: T) {
    function GetOr(default: T): T {
      match this
      case Some(v) => v
      case None => default
    }
  }

  datatype Result<+R> = Ok(value: R) | Err(error: string)
}
