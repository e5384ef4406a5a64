/** A value that may be missing, such as the text of a page. */
module Wrappers {

  datatype Option<+T> = None | Some(value: T)
}
