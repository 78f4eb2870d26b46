/** Absent-or-present values: JavaScript's `undefined`/`null` against a value. */
module Wrappers {

  datatype Option<+T> = None | Some(value: T)
}
