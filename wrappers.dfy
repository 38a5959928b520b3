/** Option, the one generic wrapper the model needs. */
module Wrappers {

  datatype Option<+T> = None | Some(value: T)
}
