/** The result shapes the rest of the model shares. */
module Wrappers {

  datatype Option<+T> = None | Some(value: T)
}
