/** Optional values, standing for the `T | null` and `T | undefined` of the application. */
module Wrappers {

  datatype Option<+T> = None | Some(value: T)
}
