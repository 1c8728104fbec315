/** A JavaScript value that may be `null`. */
module Opt {
  datatype Option<T> = None | Some(value: T)
}
