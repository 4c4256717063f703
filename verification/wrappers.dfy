/** Optional value, used where the source returns `null` or `false`. */
module Wrappers {

  /** `None` stands for the source's `null`/`undefined`/`false` results. */
  datatype Option<+T> = None | Some(value: T)
}
