/** The Option type used for partial results: a parse that fails, a NaN time value, a lookup that misses. */
module Wrappers {

  datatype Option<+T> = None | Some(value: T)

}
