/** The conventional Some/None datatype, for values the source may leave undefined. */
module Wrappers {

  datatype Option<+T> = None | Some(value: T)
}
