/** The result type of the float parser: a value or nothing. */
module Wrappers {

  /** A value or nothing: stands for Go's `(value, err)` pair, `None` meaning `err != nil`. */
  datatype Option<+T> = None | Some(value: T)
}
