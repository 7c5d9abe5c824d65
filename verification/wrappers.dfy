/** Optional values: the model's stand-in for the nullable pointers of the
    menu code (a missing list, a missing label, a missing search needle). */
module Wrappers {

  datatype Option<+T> = None | Some(value: T)
}
