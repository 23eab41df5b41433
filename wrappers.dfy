/** The optional value used wherever the modelled code uses a nullable reference. */
module Wrappers {

  datatype Option<+T> = None | Some(value: T)
}
