/** An optional value, for the places where the program has a null, a nil or a flag. */
module Options {
  datatype Option<+T> = None | Some(value: T)
}
