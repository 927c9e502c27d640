/** The optional value used for a tab's file path and for the write a save issues. */
module Wrappers {

  datatype Option<+T> = None | Some(value: T)
}
