/** Optional values: a record that may be absent, a date set only once a task is done. */
module Wrappers {

  datatype Option<+T> = None | Some(value: T)
}
