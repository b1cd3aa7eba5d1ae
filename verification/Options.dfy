/** A value that may be missing: Python's `None`, JavaScript's `undefined`. */
module Options {
  datatype Option<T> = None | Some(value: T)
}
