/** Option, Result and Outcome: Kotlin's nullable values and thrown exceptions as values. */
module Wrappers {

  /** A nullable value (`T?` in Kotlin). */
  datatype Option<+T> = None | Some(value: T) {
    function GetOr(default: T): T {
      match this
      case Some(v) => v
      case None => default
    }
  }

  /** A value or the exception that was thrown instead. */
  datatype Result<+R, +E> = Success(value: R) | Failure(error: E)

  /** A call that returns nothing, or the exception it threw. */
  datatype Outcome<+E> = Pass | Fail(error: E)
}
