/** A value that may be missing: a NULL pointer, an empty list, a failed search. */
module Options {
  datatype Option<+T> = None | Some(value: T)
}
