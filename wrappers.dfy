/** The optional value used throughout the model for "absent" host values. */
module Wrappers {

  datatype Option<+T> = None | Some(value: T)
}
