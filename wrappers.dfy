/** The optional value used where the relay's JavaScript can see `undefined`. */
module Wrappers {

  datatype Option<+T> = None | Some(value: T)
}
