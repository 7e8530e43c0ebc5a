/** The Some/None datatype used for the JavaScript `null` results and for
    computations that end in a thrown exception. */
module Wrappers {

  datatype Option<+T> = None | Some(value: T)
}
