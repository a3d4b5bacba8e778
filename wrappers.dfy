/** Failure-carrying values for the places where the Python code raises
    ZeroDivisionError instead of returning. */
module Wrappers {

  datatype Option<+T> = None | Some(value: T)

}
