/** Option, standing in for Ruby's nil-or-value. */
module Wrappers {

  datatype Option<+T> = None | Some(value: T)

}
