/** Option and Result values, the shapes Rust's `Option` and panicking calls take in this model. */
module Wrappers {

  datatype Option<+T> = None | Some(value: T)

  /** `Err` stands for a failure of the modelled call: a returned error or a panic. */
  datatype Result<+T, +E> = Ok(value: T) | Err(error: E)
}
