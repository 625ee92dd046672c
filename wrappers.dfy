/** The Option datatype the rest of the model uses for JavaScript's `undefined`, `null` and `NaN` outcomes. */
module Wrappers {
  datatype Option<+T> = None | Some(value: T)
}
