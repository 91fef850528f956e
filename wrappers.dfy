/** The optional value used for a layout file that may be absent and a dump that may not be written. */
module Wrappers {
  datatype Option<+T> = None | Some(value: T)
}
