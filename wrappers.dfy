/** Option and Result values standing for JavaScript's null/undefined and for
    the exceptions that the try/catch blocks of the application turn into values. */
module Wrappers {

  datatype Option<+T> = None | Some(value: T) {
    function GetOr(default: T): T {
      match this
      case Some(v) => v
      case None => default
    }
  }

  datatype Result<+T, +E> = Ok(value: T) | Err(error: E)
}
