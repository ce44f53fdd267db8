/** The optional-value datatype used for the results of line lookups. */
module Wrappers {

  /** `None` when a lookup found nothing; `Some(v)` otherwise. */
  datatype Option<+T> = None | Some(value: T)
}
