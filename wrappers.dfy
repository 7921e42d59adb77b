/** The usual optional-value datatype, used for "no result" outcomes of the model. */
module Wrappers {
  datatype Option<+T> = None | Some(value: T)
}
