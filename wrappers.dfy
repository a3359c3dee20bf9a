/** The optional value used wherever JavaScript yields `undefined` for "nothing". */
module Wrappers {

  datatype Option<+T> = None | Some(value: T)
}
