/** The optional-value datatype used for a heading's text, which may be missing. */
module Wrappers {

  datatype Option<+T> = None | Some(value: T)
}
