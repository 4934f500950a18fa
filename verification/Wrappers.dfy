/** The optional value used where the JavaScript code may produce
    `undefined` or throw. */
module Wrappers {

  datatype Option<+T> = None | Some(value: T)
}
