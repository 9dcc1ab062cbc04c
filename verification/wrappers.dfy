/** Failure-compatible result types: PHP's `null` as "no match" and thrown
    exceptions become values the caller must inspect. */
module Wrappers {

  datatype Option<+T> = None | Some(value: T) {

    /** PHP's `$x ?? $default`. */
    function GetOr(default: T): T
    {
      match this
      case Some(v) => v
      case None => default
    }
  }

  datatype Result<+R, +E> = Success(value: R) | Failure(error: E)
}
