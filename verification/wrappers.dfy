/** An optional value, used for the engine references that may be null. */
module Wrappers {

  datatype Option<+T> = None | Some(value: T)
}
