/** The Some/None datatype used for calls that may raise or return nothing. */
module Wrappers {

  datatype Option<+T> = None | Some(value: T)
}
