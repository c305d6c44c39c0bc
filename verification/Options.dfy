/** The result of a library call that may fail, or of a lookup that may miss. */
module Options {
  datatype Option<T> = None | Some(value: T)
}
