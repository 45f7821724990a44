/** A value that may be absent: JavaScript's `undefined`/`null` where the program can meet one. */
module Wrappers {

  datatype Option<+T> = None | Some(value: T)
}
