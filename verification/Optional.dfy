/** A value that may be missing, for Python's `None`. */
module Optional {
  datatype Option<+T> = None | Some(value: T)
}
