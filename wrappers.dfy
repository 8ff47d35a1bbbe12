/** The optional value the interpreter uses for operands and for popping the stack. */
module Wrappers {
  datatype Option<+T> = None | Some(value: T)
}
