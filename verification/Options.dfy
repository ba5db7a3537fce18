/** The conventional optional value, used for C's nullable results. */
module Options {
  datatype Option<+T> = None | Some(value: T)
}
