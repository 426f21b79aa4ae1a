/** The optional-value datatype used wherever the source reads a possibly
    missing record field or gets `null`/`undefined` back. */
module Wrappers {

  datatype Option<+T> = None | Some(value: T)
}
