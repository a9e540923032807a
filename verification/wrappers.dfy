/** The optional-value type used wherever the page logic can come up empty:
    an id that matches no episode, or a string that does not parse. */
module Wrappers {

  datatype Option<+T> = None | Some(value: T)
}
