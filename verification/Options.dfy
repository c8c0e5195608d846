/** A value or none: the null pointers and the errors of the sources. */
module Options {
  datatype Option<T> = None | Some(value: T)
}
