/** An optional value: a C pointer that may be null, or a computation with no defined result. */
module Options {
  datatype Option<+T> = None | Some(value: T)
}
