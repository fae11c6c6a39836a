/** The optional value used for DOM lookups that may find nothing (`null` in the script). */
module Wrappers {

  datatype Option<+T> = None | Some(value: T)
}
