/** An optional value, for the fields an op may leave out. */
module Options {
  datatype Option<+T> = None | Some(value: T)
}
