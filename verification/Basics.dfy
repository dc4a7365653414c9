/** Small notions that several components share. */
module Basics {

  /** A value that may be missing. */
  datatype Option<+T> = None | Some(value: T)

  function One(b: bool): nat {
    if b then 1 else 0
  }

  predicate Distinct<T(==)>(list: seq<T>) {
    forall i, j :: 0 <= i < j < |list| ==> list[i] != list[j]
  }
}
