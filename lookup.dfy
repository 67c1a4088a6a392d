/** Lookups by key, standing for `FirstOrDefault` and `FindAsync` on a table. */
module Lookup {
  import opened Wrappers

  /** `FirstOrDefault` by key, as a position: the first element whose key is `k`, or none. */
  function FirstIndex<T, K(==)>(s: seq<T>, key: T -> K, k: K): (r: Option<nat>)
    ensures r.Some? ==> r.value < |s| && key(s[r.value]) == k
    ensures r.Some? ==> forall j :: 0 <= j < r.value ==> key(s[j]) != k
    ensures r.None? <==> forall j :: 0 <= j < |s| ==> key(s[j]) != k
  {
    if s == [] then None
    else if key(s[0]) == k then Some(0)
    else match FirstIndex(s[1..], key, k)
      case None => None
      case Some(j) => Some(j + 1)
  }
}
