/** A value that may be absent: Python's None, or the exception where it raises. */
module Options {
  datatype Option<+T> = None | Some(value: T)
}
