/** Option, for lookups and conversions that can fail. */
module Wrappers {

  datatype Option<+T> = None | Some(value: T)
}
