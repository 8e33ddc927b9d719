/** The optional value used for the pending first quadrant and for the
    command a key event may complete. */
module Wrappers {

  datatype Option<+T> = None | Some(value: T)
}
