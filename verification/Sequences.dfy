/** Sequences read as sets. */
module Sequences {

  function Elements<T(==)>(s: seq<T>): (r: set<T>) {
    set x | x in s
  }

  ghost predicate Distinct<T>(s: seq<T>) {
    forall i, j | 0 <= i < j < |s| :: s[i] != s[j]
  }
}
