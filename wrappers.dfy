/** The optional value used where the tool's calls either produce a value or throw. */
module Wrappers {

  datatype Option<+T> = None | Some(value: T)

}
