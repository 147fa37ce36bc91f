/** The optional-value datatype used wherever the source returns `undefined`
    or silently drops its input. */
module Wrappers {

  datatype Option<+T> = None | Some(value: T)
}
