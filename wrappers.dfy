/** The optional value a Java lookup returns: an object, or null. */
module Wrappers {

  datatype Option<+T> = None | Some(value: T)
}
