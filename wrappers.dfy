/** Optional values and success-or-error results shared by the pipeline and the service layer. */
module Wrappers {

  /** A value that may be missing: Python's `None` for a nullable column or an absent row. */
  datatype Option<+T> = None | Some(value: T)

  /** A returned value, or the exception raised instead. */
  datatype Result<+T, +E> = Ok(value: T) | Err(error: E)
}
