/** The optional value used for lookups that may find nothing and for text that may not parse. */
module Wrappers {

  datatype Option<+T> = None | Some(value: T)
}
