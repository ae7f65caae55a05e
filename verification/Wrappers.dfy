/** The optional value used wherever the program returns nothing, a null pointer or "not found". */
module Wrappers {
  datatype Option<+T> = None | Some(value: T)
}
