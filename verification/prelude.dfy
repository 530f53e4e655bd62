/**
 The two sum types of Rust's prelude that the detector is written in terms of:
 `Option<T>` for an optional value and `Result<T, E>` for an operation that may fail.
 */
module Prelude {

  /** `Option<T>`: `None` or `Some(value)`. */
  datatype Option<+T> = None | Some(value: T) {

    /** `opt.unwrap_or(default)`: the carried value, or `default` when there is none. */
    function UnwrapOr(default: T): T {
      match this
      case Some(v) => v
      case None => default
    }
  }

  /** `Result<T, E>`: a success `Ok(value)` or a failure `Err(error)`. */
  datatype Result<+T, +E> = Ok(value: T) | Err(error: E)
}
