/** The optional values the validator passes between its stages. */
module Wrappers {

  datatype Option<+T> = None | Some(value: T)

}
