/** Null-or-value, the model's stand-in for a C# reference that may be null. */
module Wrappers {
  datatype Option<+T> = None | Some(value: T)

  /** A result, or the `NullReferenceException` raised instead of it when the code dereferenced null. */
  datatype Checked<+T> = Done(value: T) | NullReferenceThrown
}
