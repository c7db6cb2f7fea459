/** Failure-carrying results, in place of the exceptions and nulls of the service. */
module Wrappers {

  /** A value that may be absent (a Java `Optional`, or a nullable argument). */
  datatype Option<+T> = None | Some(value: T) {
    function GetOr(default: T): T {
      match this
      case Some(v) => v
      case None => default
    }
  }

  /** A computed value, or the error the service would have thrown instead. */
  datatype Result<+R, +E> = Success(value: R) | Failure(error: E)

  /** Completion without a value (a `void` method), or the error it threw. */
  datatype Outcome<+E> = Pass | Fail(error: E)
}
