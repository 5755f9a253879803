/** The optional value used where the program gets back `null` or catches an exception. */
module Wrappers {
  datatype Option<+T> = None | Some(value: T)
}
