/** The optional value used wherever the system has "nothing" (a missing
    estimate, an absent second ETA, a cache miss). */
module Wrappers {

  datatype Option<+T> = None | Some(value: T)
}
