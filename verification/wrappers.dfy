/** The optional value used for request results and error messages. */
module Wrappers {

  datatype Option<+T> = None | Some(value: T)
}
