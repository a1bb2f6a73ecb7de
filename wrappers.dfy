/** The optional value the source expresses with `null` or `undefined`. */
module Wrappers {

  datatype Option<+T> = None | Some(value: T)
}
