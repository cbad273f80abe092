/** The optional value used for the admin screen's edit buffer, which is either
    a listing or empty (`null` in the component). */
module Wrappers {

  datatype Option<+T> = None | Some(value: T)

}
