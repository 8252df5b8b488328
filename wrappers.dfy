/** The conventional optional-value datatype, used for values the page may lack
    (a stored preference, an intersecting section). */
module Wrappers {
  datatype Option<+T> = None | Some(value: T)
}
