/** Option and Result, standing for Rust's `Option`/`Result` and for the
    nullable fields of the TypeScript state records. */
module Wrappers {

  datatype Option<+T> = None | Some(value: T)

  datatype Result<+T, +E> = Ok(value: T) | Err(error: E)
}
