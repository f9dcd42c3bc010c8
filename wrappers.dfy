/** The optional-value datatype used across the model for JavaScript's `undefined`, `null` and "no element". */
module Wrappers {

  datatype Option<+T> = None | Some(value: T)
}
