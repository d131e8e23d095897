/** Optional values, used where the Go code returns nil, an error or a second boolean; lists without repetition. */
module Wrappers {
  datatype Option<+T> = None | Some(value: T)

  predicate NoDuplicates<T(==)>(xs: seq<T>) {
    forall i, j | 0 <= i < j < |xs| :: xs[i] != xs[j]
  }
}
