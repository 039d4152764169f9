/** A value that may be absent: JavaScript's `null` for the page's ids and messages. */
module Wrappers {

  datatype Option<+T> = None | Some(value: T)

}
