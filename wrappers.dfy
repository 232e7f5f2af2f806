/** The optional value used for "no such entry", "no pointer registered" and "no valid record". */
module Wrappers {
  datatype Option<+T> = None | Some(value: T)
}
