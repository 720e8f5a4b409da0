/** Optional values and success/failure results, standing in for the
    TypeScript `T | undefined` values and for thrown exceptions. */
module Wrappers {

  /** `None` is JavaScript's `undefined`/`null`; `Some(v)` a present value. */
  datatype Option<+T> = None | Some(value: T) {

    /** The `??` operator: the value if present, else the default. */
    function GetOr(default: T): T {
      match this
      case Some(v) => v
      case None => default
    }
  }

  /** An awaited call: it either resolved with a value or threw an error. */
  datatype Result<+T, +E> = Ok(value: T) | Err(error: E)
}
