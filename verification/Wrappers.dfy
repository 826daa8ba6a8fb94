// An optional value: the model's `null` / `undefined`.
module Wrappers {
  datatype Option<+T> = None | Some(value: T)
}
