/** The Some/None datatype used for DOM lookups that may find nothing
    and for attributes that may be absent. */
module Wrappers {

  datatype Option<+T> = None | Some(value: T)

}
