/** A value that may be missing: an absent JSON field, a resolver that threw. */
module Wrappers {

  datatype Option<+T> = None | Some(value: T)
}
