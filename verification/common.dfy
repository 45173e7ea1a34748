/** Failure-carrying wrappers shared by the parser and the matrix model. */
module Common {

  /** An optional value; mirrors Rust's `Option`. */
  datatype Option<+T> = None | Some(value: T)

  /** A value or an error; mirrors Rust's `Result`. */
  datatype Result<+T, +E> = Ok(value: T) | Err(error: E)
}
