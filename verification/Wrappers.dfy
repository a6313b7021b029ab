/** Result types shared by the modelled components. */
module Wrappers {
  datatype Option<+T> = None | Some(value: T)
}
