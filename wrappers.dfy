/** The optional value used throughout the model: None stands for JavaScript's
    `undefined` or `null` where the source returns either of them. */
module Wrappers {
  datatype Option<+T> = None | Some(value: T)
}
