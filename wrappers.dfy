/** The optional value used for JavaScript's `null`, `NaN` and "nothing stored". */
module Wrappers {
  datatype Option<+T> = None | Some(value: T)
}
