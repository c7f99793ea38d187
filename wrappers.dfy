/** The Option type used wherever Python returns a value or None. */
module Wrappers {

  datatype Option<+T> = None | Some(value: T)
}
