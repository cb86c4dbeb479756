/** Failure-compatible wrappers shared by the model's modules. */
module Wrappers {

  /** A value that may be absent: a missing field, a null query result. */
  datatype Option<+T> = None | Some(value: T) {
    function GetOr(default: T): T {
      match this
      case Some(v) => v
      case None => default
    }
  }

  /** The `{ success, data?, error? }` envelope the server actions return. */
  datatype Result<+T, +E> = Success(value: T) | Failure(error: E)
}
