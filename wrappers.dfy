/** Optional values (Python's `None`, pandas' NaN) and results that may carry a raised error. */
module Wrappers {

  datatype Option<+T> = None | Some(value: T) {

    /** The value, or `default` when there is none (pandas' `fillna(default)`). */
    function GetOr(default: T): T {
      match this
      case Some(v) => v
      case None => default
    }
  }

  /** `Failure` stands for an exception the source raises and its caller sees. */
  datatype Result<+T, +E> = Success(value: T) | Failure(error: E)
}
