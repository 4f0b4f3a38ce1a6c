/** A value that may be missing, as in Rust's standard library. */
module Options {
  datatype Option<T> = None | Some(value: T)
}
