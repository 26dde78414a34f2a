/** The optional value the graph container answers lookups with. */
module Wrappers {
  datatype Option<+T> = None | Some(value: T)
}
