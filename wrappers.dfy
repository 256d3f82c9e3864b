/** The optional value the blackboard lookup returns in place of a null reference. */
module Wrappers {

  datatype Option<T> = None | Some(value: T)

}
