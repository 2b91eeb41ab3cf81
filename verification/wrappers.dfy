/** The optional value used where the engine passes or holds a possibly-null pointer. */
module Wrappers {

  datatype Option<+T> = None | Some(value: T)
}
