/** An optional value, used where the source returns a null pointer or leaves a local unassigned. */
module Wrappers {
  datatype Option<+T> = None | Some(value: T)
}
