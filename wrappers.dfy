/** The absent-or-present values the source expresses with Java's null. */
module Wrappers {
  datatype Option<+T> = None | Some(value: T)
}
