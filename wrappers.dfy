/** A value that may be absent: JavaScript's `undefined` result of `find`
    and of an empty notification. */
module Wrappers {

  datatype Option<+T> = None | Some(value: T)
}
