/** The optional value used where the script starts from `None` or may find nothing. */
module Options {
  datatype Option<+T> = None | Some(value: T)
}
