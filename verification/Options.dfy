// The values that the program represents with null pointers and with failures.
module Options {
  datatype Option<+T> = None | Some(value: T)
}
