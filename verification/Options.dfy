/** A value that may be missing: an optional result, or a pointer that may be null. */
module Options {
  datatype Option<+T> = None | Some(value: T)
}
