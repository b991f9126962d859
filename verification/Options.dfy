/** A value that may be absent, as the source's null pointers are. */
module Options {
  datatype Option<+T> = None | Some(value: T)
}
