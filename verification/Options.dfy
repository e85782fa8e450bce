/** A value that may be absent: nil in the source, or the error half of a result. */
module Options {
  datatype Option<+T> = None | Some(value: T)
}
