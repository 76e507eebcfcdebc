/** The optional value a LEFT JOIN leaves NULL when nothing matches. */
module Wrappers {
  datatype Option<+T> = None | Some(value: T)
}
