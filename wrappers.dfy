/** The optional value used for "no node", "no armed timer", "no device" and "no pointer". */
module Wrappers {
  datatype Option<+T> = None | Some(value: T)
}
