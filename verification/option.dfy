/** The optional value used for Python's `None` and for regular-expression searches that find nothing. */
module Options {
  datatype Option<+T> = None | Some(value: T)
}
