/** The optional value used where the program uses a nullable pointer. */
module Wrappers {

  datatype Option<+T> = None | Some(value: T)
}
