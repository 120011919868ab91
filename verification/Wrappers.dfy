/** The optional value the model uses for the source's (value, ok) results. */
module Wrappers {
  datatype Option<+T> = None | Some(value: T)
}
