/** A value that may be missing: a null pointer, or an output that is left alone. */
module Options {

  datatype Option<+T> = None | Some(value: T)
}
