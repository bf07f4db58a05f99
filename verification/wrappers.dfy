/** Failure-carrying result types shared by every module of the model. */
module Wrappers {

  /** A value that may be absent: a JSON key that was not sent, a field left undefined. */
  datatype Option<+T> = None | Some(value: T) {

    /** The carried value, or `default` when there is none (JavaScript's `x || d`, Python's `get(k, d)`). */
    function GetOr(default: T): T {
      match this
      case Some(v) => v
      case None => default
    }
  }

  /** The outcome of an operation that can fail: a rejected promise or a raised exception. */
  datatype Result<+T, +E> = Success(value: T) | Failure(error: E)
}
