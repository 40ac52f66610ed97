/** The optional result used where game.py returns a value or None. */
module Wrappers {

  datatype Option<+T> = None | Some(value: T)
}
