/** The optional value used where the shell's C code returns a NULL pointer or a
    "not found" result. */
module Wrappers {

  datatype Option<+T> = None | Some(value: T)
}
