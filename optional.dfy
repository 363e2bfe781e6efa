/** A value that may be absent: a C pointer that may be NULL, a switch case that posts nothing. */
module Optional {
  datatype Option<+T> = None | Some(value: T)
}
