/** Results that may be missing, as the source's nil. */
module Options {
  datatype Option<+T> = None | Some(value: T)
}
