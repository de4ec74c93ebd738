/** A value that may be absent: localStorage.getItem's null, an empty file input. */
module Optional {
  datatype Option<+T> = None | Some(value: T)
}
