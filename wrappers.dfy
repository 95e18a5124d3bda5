/** The Option type used for the optional fields of agent replies and for partial results. */
module Wrappers {

  datatype Option<+T> = None | Some(value: T)
}
