/** Success/failure results: the model's counterpart of Rust's `Result`. */
module Wrappers {

  datatype Result<+T, +E> = Ok(value: T) | Err(error: E)
}
