/** What several models use. */
module Basics {

  datatype Option<T> = None | Some(value: T)

  function Bit(b: bool): (n: int) {
    if b then 1 else 0
  }

  ghost predicate Distinct(s: seq<nat>) {
    forall i, j :: 0 <= i < j < |s| ==> s[i] != s[j]
  }
}
