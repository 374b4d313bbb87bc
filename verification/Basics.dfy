/** Notions shared by all modules. */
module Basics {

  /** A value that may be missing: a lookup that fails, a method that throws. */
  datatype Option<T> = None | Some(value: T)

  predicate NoDuplicates<T(==)>(s: seq<T>) {
    forall i, j :: 0 <= i < j < |s| ==> s[i] != s[j]
  }
}
