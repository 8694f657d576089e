/** The optional value the Rust code uses for key lookups (`Option<T>`). */
module Wrappers {
  datatype Option<+T> = None | Some(value: T)
}
