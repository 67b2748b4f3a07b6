/** The optional-value type used for the signed-in user and a document's owner. */
module Wrappers {

  datatype Option<+T> = None | Some(value: T)
}
