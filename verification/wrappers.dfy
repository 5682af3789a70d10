/** The Option datatype used for absent values: a missing header, a line that
    does not parse, a finish reason that is `null`. */
module Wrappers {

  datatype Option<+T> = None | Some(value: T)
}
