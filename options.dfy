/** The usual optional value: a missing header, a failed parse, an absent key. */
module Options {
  datatype Option<+T> = None | Some(value: T)
}
