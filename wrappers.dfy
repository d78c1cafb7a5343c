/** The optional value used for JavaScript fields that may still be `undefined`. */
module Wrappers {

  datatype Option<+T> = None | Some(value: T)
}
