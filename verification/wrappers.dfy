/** Optional values and success/failure results, used wherever the source
    has `undefined`/`null` fields or throws. */
module Wrappers {

  /** `None` stands for a field that is `undefined` or `null`. */
  datatype Option<+T> = None | Some(value: T) {

    /** The `??` operator: the value if present, otherwise `default`. */
    function GetOr(default: T): T {
      match this
      case Some(v) => v
      case None => default
    }
  }

  /** The outcome of an operation that may throw. */
  datatype Result<+T, +E> = Ok(value: T) | Err(error: E)

  /** The outcome of an operation that returns nothing but may throw. */
  datatype Outcome<+E> = Pass | Fail(error: E)
}
