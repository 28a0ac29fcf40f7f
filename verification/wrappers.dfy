/** The usual optional value, standing for JavaScript's `undefined`/`null` beside a present value. */
module Wrappers {
  datatype Option<+T> = None | Some(value: T)
}
