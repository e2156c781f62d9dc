/** A pointer that may be NULL, where the pointee is a value. */
module Options {
  datatype Option<T> = None | Some(value: T)
}
