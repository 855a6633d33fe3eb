/** Stock optional value: `None` stands for JavaScript's `undefined`/`null`
    (or an empty `{}` result) wherever the source uses one. */
module Wrappers {
  datatype Option<+T> = None | Some(value: T)
}
