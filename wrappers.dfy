/** Rust's `Option`, as used by the payload and index interfaces. */
module Wrappers {

  datatype Option<+T> = None | Some(value: T)
}
