/** An optional value and a value-or-error. */
module Wrappers {

  /** Either nothing or a value; stands for Python's `None`-or-value returns. */
  datatype Option<+T> = None | Some(value: T)

  /** Either a value or the error a constructor raises. */
  datatype Result<+R, +E> = Success(value: R) | Failure(error: E)
}
