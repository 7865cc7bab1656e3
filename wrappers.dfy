/** The optional value used for JavaScript's `undefined`, `null` and failed regex matches. */
module Wrappers {

  datatype Option<+T> = None | Some(value: T)
}
