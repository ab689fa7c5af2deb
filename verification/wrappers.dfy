/** Optional values and results, used for JavaScript's `undefined` and for thrown errors. */
module Wrappers {

  /** `None` stands for a JavaScript `undefined` (or an absent value). */
  datatype Option<+T> = None | Some(value: T) {
    function GetOr(default: T): T {
      match this
      case Some(v) => v
      case None => default
    }
  }

  /** The outcome of an operation that may throw. */
  datatype Result<+T, +E> = Success(value: T) | Failure(error: E)
}
