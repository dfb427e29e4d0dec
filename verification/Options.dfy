/** The usual optional value, standing for JavaScript's null or undefined. */
module Options {
  datatype Option<+T> = None | Some(value: T)
}
