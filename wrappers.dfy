/** Helpers shared by the day modules: an optional value standing for Rust's `Option`,
    used where the program would `unwrap` a `None` or otherwise panic. */
module Wrappers {
  datatype Option<T> = None | Some(value: T)
}
