/** The optional-value datatype the model uses for lookups that may find nothing. */
module Wrappers {

  datatype Option<+T> = None | Some(value: T)
}
