/** The optional result of a lookup: `None` stands for the NULL pointer that
    `ConVar` and `ConCmd` return when no record matches. */
module Wrappers {

  datatype Option<+T> = None | Some(value: T)
}
