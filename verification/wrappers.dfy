/** Wrappers used by the model: an optional value and a
    value-or-error result, standing for Rust's `Option` and `Result`. */
module Wrappers {

  /** An optional value; `None` is an empty slot. */
  datatype Option<+T> = None | Some(value: T)

  /** Either a value or the error that prevented it. */
  datatype Result<+R, +E> = Success(value: R) | Failure(error: E)
}
