module Options {

  /** A Python value that may be None, or a dictionary entry that may be absent. */
  datatype Option<+T> = None | Some(value: T)
}
