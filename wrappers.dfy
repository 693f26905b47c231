/** The optional value used by the scanners: a match found at a position, or none. */
module Wrappers {

  datatype Option<+T> = None | Some(value: T)
}
