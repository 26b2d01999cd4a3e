/** Option and outcome types shared by the model. */
module Wrappers {

  /** Rust's `Option<T>`. */
  datatype Option<T> = None | Some(value: T)

  /** A Rust `Result<(), E>`: success carries no value. */
  datatype Outcome<E> = Pass | Fail(error: E)
}
