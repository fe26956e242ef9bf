/** An optional value: an option left off the command line, a file that is not there. */
module Wrappers {

  datatype Option<+T> = None | Some(value: T)
}
