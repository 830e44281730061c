/** Failure-compatible wrappers: Java's nullable references become `Option`,
    thrown exceptions on the CRUD paths become the `Failure` side of `Result`. */
module Wrappers {

  datatype Option<+T> = None | Some(value: T)
  {
    function GetOr(default: T): T
    {
      match this
      case Some(v) => v
      case None => default
    }
  }

  datatype Result<+R, +E> = Success(value: R) | Failure(error: E)
}
