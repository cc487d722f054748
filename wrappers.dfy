/** Option and outcome types shared by the meaning-ranking model. */
module Wrappers {

  /** A value that may be missing: Python's `None` versus a value. */
  datatype Option<+T> = None | Some(value: T) {

    /** The value, or `default` when it is missing (pandas' `fillna`). */
    function GetOr(default: T): T
    {
      match this
      case Some(v) => v
      case None => default
    }
  }

  /** The Python exceptions that can escape the ranking pipeline. */
  datatype PyError = ValueError | IndexError

  /** A computed value, or the exception the source raises instead. */
  datatype Outcome<+T> = Ok(value: T) | Raise(error: PyError)
}
