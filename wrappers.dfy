/** Option and outcome types standing in for the nullable values and exceptions of the application. */
module Wrappers {

  /** A nullable value: `None` is C#'s `null`. */
  datatype Option<+T> = None | Some(value: T) {
    /** The `??` operator: the value, or `default` when null. */
    function GetOr(default: T): T {
      match this
      case Some(v) => v
      case None => default
    }
  }

  /** Either a value or the error that the source would throw or report. */
  datatype Result<+R, +E> = Ok(value: R) | Err(error: E)

  /** A side effect that either completed or stopped on an error. */
  datatype Outcome<+E> = Done | Failed(error: E)
}
