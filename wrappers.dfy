/** The optional value used for "no partner found" and for an undefined minimum. */
module Wrappers {
  datatype Option<+T> = None | Some(value: T)
}
