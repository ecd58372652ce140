/** Failure-compatible wrapper types shared by every module of the model. */
module Wrappers {

  /** A value that may be absent: JavaScript's `null`/`undefined`. */
  datatype Option<+T> = None | Some(value: T) {

    /** The wrapped value, or `default` when absent (the `??` operator). */
    function GetOr(default: T): T {
      match this
      case Some(v) => v
      case None => default
    }
  }

  /** An optional string that JavaScript treats as true: present and non-empty. */
  predicate HasText(v: Option<string>) {
    v.Some? && v.value != ""
  }

  /** Either a result or the error a function throws. */
  datatype Result<+R, +E> = Success(value: R) | Failure(error: E)
}
