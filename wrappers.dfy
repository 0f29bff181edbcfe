/** Optional values: None stands for an absent value, and in the date code
    for ECMAScript's NaN (an invalid time value). */
module Wrappers {

  datatype Option<+T> = None | Some(value: T)
}
