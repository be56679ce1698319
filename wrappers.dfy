/** The optional value used wherever the program returns `null` or `undefined`. */
module Wrappers {

  datatype Option<+T> = None | Some(value: T)

}
