/** The optional value the controller uses wherever the original returns `None`. */
module Wrappers {

  datatype Option<+T> = None | Some(value: T)
}
