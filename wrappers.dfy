/** Option and Result values shared by the rest of the model. */
module Wrappers {

  datatype Option<+T> = None | Some(value: T) {
    function GetOr(default: T): T {
      match this
      case Some(v) => v
      case None => default
    }
  }

  /** The outcome of an operation that either returns a value or throws `error`. */
  datatype Result<+T, +E> = Ok(value: T) | Err(error: E)

  /** The outcome of an Express middleware: `next()` or `next(error)`. */
  datatype Outcome<+E> = Pass | Fail(error: E)
}
