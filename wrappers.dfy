/** The conventional optional value, used for the foreign calls that can fail
    (parsing a document, evaluating an expression, reading a file). */
module Wrappers {

  datatype Option<+T> = None | Some(value: T)
}
