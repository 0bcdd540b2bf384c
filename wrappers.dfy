/** Failure-compatible wrappers shared by the model: an optional value (JavaScript
    `null`/`undefined` versus a present value) and a result that is either a value
    or the error a JavaScript expression would throw. */
module Wrappers {

  datatype Option<+T> = None | Some(value: T) {
    function GetOr(default: T): T {
      match this
      case Some(v) => v
      case None => default
    }
  }

  datatype Result<+R, +E> = Success(value: R) | Failure(error: E)
}
