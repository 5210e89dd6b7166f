/** Optional values. A JSON field missing from a request body is read as
    `undefined` in the server; the model writes that as `None`. */
module Wrappers {

  datatype Option<+T> = None | Some(value: T)
}
