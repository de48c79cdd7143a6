/** Result and Option types shared by the scanner and the layout. */
module Wrappers {

  /** `Option` mirrors Rust's `Option`; it is used for the widget's current tree. */
  datatype Option<T> = None | Some(value: T)

  /** Outcome of an operation that either returns a value or aborts the program
      with a Rust `panic!` (or an `unwrap` of `None`). */
  datatype Result<T> = Ok(value: T) | Panic
}
