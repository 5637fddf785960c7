/** The optional value used for "not found" results (a null pointer in C). */
module Wrappers {

  datatype Option<+T> = None | Some(value: T)
}
