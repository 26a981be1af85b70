/** The optional value used where the lookup may find no entry (`FirstOrDefault`)
    or no cap is given. */
module Wrappers {

  datatype Option<+T> = None | Some(value: T)
}
