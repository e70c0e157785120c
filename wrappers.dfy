/** The optional value used wherever the source has `undefined` as an outcome. */
module Wrappers {

  datatype Option<+T> = None | Some(value: T)
}
