/** The value-or-nothing type the components share. */
module Options {
  datatype Option<+T> = None | Some(value: T)
}
