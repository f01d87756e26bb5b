/** The optional value used for Rust's `Option`/`Result` and for Java's `null`. */
module Wrappers {
  datatype Option<+T> = None | Some(value: T)
}
