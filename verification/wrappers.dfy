/** The optional value used for the state file (absent or present) and for a
    response that may carry no body. */
module Wrappers {

  datatype Option<+T> = None | Some(value: T)
}
