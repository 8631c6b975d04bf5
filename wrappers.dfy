/** The optional result of the reference decimal parser, which may reject its input. */
module Wrappers {
  datatype Option<+T> = None | Some(value: T)
}
