/** Small shared datatypes: Rust's `Option`. */
module Basics {

  /** Rust's `Option<T>`. */
  datatype Option<+T> = None | Some(value: T)
}
