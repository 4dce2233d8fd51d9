/** The optional value returned by a register read outside the register file. */
module Wrappers {
  datatype Option<+T> = None | Some(value: T)
}
