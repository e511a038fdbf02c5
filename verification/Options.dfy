/** A value that may be absent: a null pointer or a key that is not found. */
module Options {
  datatype Option<T> = None | Some(value: T)
}
