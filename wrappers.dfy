/** The optional value used wherever the game reads a lookup that may miss. */
module Wrappers {
  datatype Option<+T> = None | Some(value: T)
}
