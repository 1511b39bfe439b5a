/** A value that may be absent: SQL NULL, Python None. */
module Optional {
  datatype Option<+T> = None | Some(value: T)
}
