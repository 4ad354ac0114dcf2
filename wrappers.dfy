/** Stock optional value: `None` stands for a C# `null` reference. */
module Wrappers {
  datatype Option<+T> = None | Some(value: T)
}
