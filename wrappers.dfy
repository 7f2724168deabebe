/** The optional-value wrapper used throughout the model. */
module Wrappers {

  datatype Option<T> = None | Some(value: T)
}
