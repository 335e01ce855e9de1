/** Failure-compatible result types shared by the other modules.
- Option<T> stands for a Python value that may be `None`.
- Result<T, E> stands for a value or a raised exception.
 */
module Wrappers {

  /** A value that may be absent (Python's `None`). */
  datatype Option<+T> = None | Some(value: T)

  /** Either a value or the error a Python `raise` would have carried. */
  datatype Result<+T, +E> = Success(value: T) | Failure(error: E)
}
