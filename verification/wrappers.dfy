/** The two shapes the cleaners and the record builder return in place of
    Python's `None` and of a raised exception. */
module Wrappers {

  /** `Some(v)` for a value, `None` for Python's `None`. */
  datatype Option<+T> = None | Some(value: T)

  /** `Success(v)` for a returned value, `Failure(e)` for the message of a
      raised exception. */
  datatype Result<+T, +E> = Success(value: T) | Failure(error: E)
}
