/** The optional value used where the canvas code relies on `undefined`. */
module Wrappers {

  datatype Option<+T> = None | Some(value: T)

}
