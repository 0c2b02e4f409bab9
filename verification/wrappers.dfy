/** Failure-compatible result types shared by every module of the model.

  The Rust code returns `Option<T>`, `Result<T, E>` and `Result<(), E>`;
  they become `Option`, `Result` and `Outcome` here.
 */
module Wrappers {

  datatype Option<+T> = None | Some(value: T) {
    /** The wrapped value, or `default` when there is none. */
    function GetOr(default: T): (r: T)
      ensures Some? ==> r == value
      ensures None? ==> r == default
    {
      match this
      case Some(v) => v
      case None => default
    }
  }

  datatype Result<+T, +E> = Ok(value: T) | Err(error: E)

  /** The outcome of a check that yields no value (`Result<(), E>`). */
  datatype Outcome<+E> = Pass | Fail(error: E)
}
