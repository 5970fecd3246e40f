/**
 * An optional value: a JavaScript parameter whose default is used when it is
 * absent, a frame time that is missing, or a `let` binding read before its
 * initialisation.
 */
module Wrappers {

  datatype Option<+T> = None | Some(value: T)
}
