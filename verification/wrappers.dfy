/** The Option type: a parsed row, or None for a reply that is rejected. */
module Wrappers {

  datatype Option<+T> = None | Some(value: T)
}
