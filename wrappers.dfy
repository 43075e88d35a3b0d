/** Option and Result, the failure-carrying values used throughout the model. */
module Wrappers {

  /** A value that may be absent (a JavaScript field that is `undefined`). */
  datatype Option<+T> = None | Some(value: T) {
    /** The value, or `default` when absent (JavaScript's `x || default` on a present value). */
    function GetOr(default: T): T {
      match this
      case Some(v) => v
      case None => default
    }
  }

  /** The outcome of an operation that can throw: a value, or the thrown error. */
  datatype Result<+R, +E> = Success(value: R) | Failure(error: E)
}
