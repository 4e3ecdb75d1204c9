/** A value that may be missing: the source's `null`, `undefined` and optional fields. */
module Options {
  datatype Option<+T> = None | Some(value: T)
}
