/** The optional value that the other modules share. */
module Wrappers {

  /** A value that may be absent: a nullable column, or a lookup that finds nothing. */
  datatype Option<+T> = None | Some(value: T)
}
