/** An optional value: stands for JavaScript's `null` where the predictor uses it. */
module Wrappers {

  datatype Option<+T> = None | Some(value: T)
}
