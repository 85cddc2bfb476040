/** A value that may be missing: Python's None, an absent key, an absent column. */
module Options {
  datatype Option<+T> = None | Some(value: T)
}
