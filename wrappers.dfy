/** The optional value used for "the pattern did not match" and "not found". */
module Wrappers {

  datatype Option<+T> = None | Some(value: T)
}
