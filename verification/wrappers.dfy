/** Failure-compatible wrappers used across the model: Python's `None` and
    raised exceptions become explicit values. */
module Wrappers {

  /** An optional value: Python's `Optional[T]`. */
  datatype Option<+T> = None | Some(value: T) {

    /** The wrapped value, or `default` when there is none. */
    function GetOr(default: T): T {
      match this
      case Some(v) => v
      case None => default
    }
  }

  /** The outcome of an operation that may raise: a value or an error message. */
  datatype Result<+T> = Success(value: T) | Failure(error: string)
}
