/** Optional values and pass/fail outcomes shared by the modules of the contact book. */
module Wrappers {

  /** A value that may be absent: Python's `None` or an object. */
  datatype Option<+T> = None | Some(value: T)

  /** A value, or the exception raised instead of producing it. */
  datatype Result<+T, +E> = Success(value: T) | Failure(error: E)

  /** An operation run for its effect, which either returns normally or raises. */
  datatype Outcome<+E> = Pass | Fail(error: E)
}
