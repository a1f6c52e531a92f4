// Absence of a value, as the source's Option type expresses it.
module Options {
  datatype Option<+T> = None | Some(value: T)
}
