/** Optional values, for the source's `std::optional` and for JavaScript's missing values. */
module Wrappers {
  datatype Option<+T> = None | Some(value: T)
}
