/** Small shared datatypes. */
module Base {

  /** A value that may be absent: a failed open, a short read, no match. */
  datatype Option<+T> = None | Some(value: T)
}
