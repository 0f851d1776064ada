/** The optional value used wherever the server yields `undefined` for "nothing". */
module Wrappers {
  datatype Option<+T> = None | Some(value: T)
}
