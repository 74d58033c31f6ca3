/** The optional value used wherever the source has `undefined`, `null` or a missing key. */
module Options {
  datatype Option<T> = None | Some(value: T)
}
