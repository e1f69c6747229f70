/** The nullable values of the page script, as an explicit option. */
module Wrappers {
  datatype Option<+T> = None | Some(value: T)
}
