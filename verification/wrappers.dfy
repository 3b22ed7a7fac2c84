/** Failure-carrying values used throughout the model: a value that may be
    absent, and a computation that either succeeds or reports an error. */
module Wrappers {

  /** An optional value; stands for JavaScript `undefined`/`null` and
      Python `None` where the source tests for them. */
  datatype Option<+T> = None | Some(value: T) {
    /** The carried value, or `default` when there is none. */
    function GetOr(default: T): T {
      match this
      case Some(v) => v
      case None => default
    }
  }

  /** The outcome of an operation that may raise: `Ok` carries the return
      value, `Err` the raised error. */
  datatype Result<+T, +E> = Ok(value: T) | Err(error: E)
}
