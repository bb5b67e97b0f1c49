/** 128-bit node identifiers and their order (`mdv_uuid_cmp`). */
module Uuids {

  /** The two 64-bit words of a `mdv_uuid`. */
  datatype Uuid = Uuid(w0: nat, w1: nat)

  predicate Less(a: Uuid, b: Uuid) { a.w0 < b.w0 || (a.w0 == b.w0 && a.w1 < b.w1) }

  /** Sign of the comparison: -1, 0 or 1. */
  function Cmp(a: Uuid, b: Uuid): (r: int)
    ensures r == 0 <==> a == b
    ensures r < 0 <==> Less(a, b)
    ensures r > 0 <==> Less(b, a)
  {
    if a.w0 < b.w0 then -1
    else if a.w0 > b.w0 then 1
    else if a.w1 < b.w1 then -1
    else if a.w1 > b.w1 then 1
    else 0
  }

  /** An unordered pair of nodes, smaller one first (`mdv_uuids_sort`). */
  datatype Pair = Pair(lo: Uuid, hi: Uuid)

  function Sorted(a: Uuid, b: Uuid): Pair {
    if Cmp(a, b) <= 0 then Pair(a, b) else Pair(b, a)
  }

  predicate Normal(p: Pair) { p == Sorted(p.lo, p.hi) }

  /** Two links are the same map key exactly when they join the same nodes, in either direction. */
  lemma SortedIdentifies(a: Uuid, b: Uuid, c: Uuid, d: Uuid)
    ensures Sorted(a, b) == Sorted(c, d) <==> (a == c && b == d) || (a == d && b == c)
  {
  }
}
