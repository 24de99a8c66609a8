/** Failure-compatible wrappers: an absent-or-present value, and the two ways an
    operation of the calendar reports success or a raised `CalendarError`. */
module Wrappers {

  /** A value that may be absent: Python's `None` for an optional argument or column. */
  datatype Option<+T> = None | Some(value: T)

  /** An operation that returns a value or raises. */
  datatype Result<+R, +E> = Success(value: R) | Failure(error: E)

  /** An operation that returns nothing (Python `None`) or raises. */
  datatype Outcome<+E> = Pass | Fail(error: E)
}
