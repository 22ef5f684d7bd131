/** An optional value: the result of a parse that may fail, or a failure that may not be raised. */
module Options {
  datatype Option<+T> = None | Some(value: T)
}
