/** The stock optional value, used wherever the program has a nil pointer, an empty string or an absent row. */
module Options {
  datatype Option<+T> = None | Some(value: T)
}
