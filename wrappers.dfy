/** Absence of a result (the source's nullable values). */
module Wrappers {
  datatype Option<+T> = None | Some(value: T)
}
