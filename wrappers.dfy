/** The optional value used wherever the bot may find nothing (a missing row, an unparsable timestamp). */
module Wrappers {
  datatype Option<+T> = None | Some(value: T)
}
