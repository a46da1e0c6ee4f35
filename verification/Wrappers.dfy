/** Small definitions that several modules share. */
module Wrappers {
  /** An optional value; also the result of an operation that may end in a fatal error. */
  datatype Option<+T> = None | Some(value: T)

  predicate NoDuplicates<T(==)>(s: seq<T>) {
    forall i, j | 0 <= i < j < |s| :: s[i] != s[j]
  }

  /** The truth values of C. */
  function AsInt(b: bool): int {
    if b then 1 else 0
  }
}
