/** Shared by all components: an optional value, and positions in sequences of numbers. */
module Common {

  datatype Option<+T> = None | Some(value: T)

  predicate Distinct(s: seq<nat>) { forall i, j :: 0 <= i < j < |s| ==> s[i] != s[j] }

  /** Where x first stands. */
  function Position(s: seq<nat>, x: nat): (p: nat)
    requires x in s
    ensures p < |s| && s[p] == x
  {
    if s[0] == x then 0 else 1 + Position(s[1..], x)
  }
}
