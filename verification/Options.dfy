/** The absent-or-present value every component uses. */
module Options {
  datatype Option<+T> = None | Some(value: T)
}
