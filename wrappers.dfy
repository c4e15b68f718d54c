/** The optional value used for a declaration's result type, absent when the method returns nothing. */
module Wrappers {

  datatype Option<+T> = None | Some(value: T)
}
