/** The optional-value and result wrappers used across the model. */
module Wrappers {

  /** An optional value: Python's `None` versus a present value. */
  datatype Option<+T> = None | Some(value: T)

  /** A value or an error the source would raise (or loop on). */
  datatype Result<+T, +E> = Ok(value: T) | Err(error: E)
}
