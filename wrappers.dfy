/** The Option datatype used for edits that may be rejected and for parses that may fail. */
module Wrappers {

  datatype Option<+T> = None | Some(value: T)
}
