/** Wrappers for optional values and for operations that raise an
    exception in the original program. */
module Wrappers {

  datatype Option<+T> = None | Some(value: T)

  /** A value, or the error the original program raises instead of returning it. */
  datatype Result<+R, +E> = Success(value: R) | Failure(error: E)

  /** The completion of an operation that only changes state: it either
      finished or raised the given error. */
  datatype Outcome<+E> = Pass | Fail(error: E)
}
