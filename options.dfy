/** The nullable values of the source: `null` is `None`. */
module Options {
  datatype Option<+T> = None | Some(value: T)
}
