/** Values that may be absent: nil errors, nil pointers and missing map entries. */
module Options {
  datatype Option<+T> = None | Some(value: T)
}
