/** The usual Some/None wrapper, used where the Go code returns a value and an `ok` flag or an error. */
module Optional {
  datatype Option<+T> = None | Some(value: T)
}
