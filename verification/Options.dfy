/** Absence and failure as values. */
module Options {
  datatype Option<+T> = None | Some(value: T)
}
