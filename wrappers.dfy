/** The optional value Java expresses with a nullable reference. */
module Wrappers {

  datatype Option<T> = None | Some(value: T)
}
