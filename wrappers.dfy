/** The conventional Some/None datatype, used wherever the lint plugin reads a
    value that may be `null` or `undefined`. */
module Wrappers {

  datatype Option<+T> = None | Some(value: T)
}
