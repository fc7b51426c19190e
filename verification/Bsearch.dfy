// fcs_dm.c: the binary search shared by the operation table and the delay points.
module Bsearch {

  // Along the sequence the key is first greater, then equal, then less.
  ghost predicate Ascending<K, T>(key: K, a: seq<T>, compare: (K, T) -> int) {
    forall i, j | 0 <= i < j < |a| ::
      && (compare(key, a[j]) >= 0 ==> compare(key, a[i]) >= 0)
      && (compare(key, a[i]) <= 0 ==> compare(key, a[j]) <= 0)
  }

  // place splits the sequence: nothing before it is greater than the key, and
  // nothing from it on is less.
  ghost predicate Splits<K, T>(key: K, a: seq<T>, compare: (K, T) -> int, place: int) {
    && 0 <= place <= |a|
    && (forall i | 0 <= i < place :: compare(key, a[i]) >= 0)
    && (forall i | place <= i < |a| :: compare(key, a[i]) <= 0)
  }

  // SFO_bsearch: the place of the key, or the place to insert it at.
  method SFOBsearch<K, T>(key: K, a: seq<T>, compare: (K, T) -> int) returns (found: bool, place: int)
    requires Ascending(key, a, compare)
    ensures Splits(key, a, compare, place)
    ensures found <==> exists i | 0 <= i < |a| :: compare(key, a[i]) == 0
    ensures found ==> place < |a| && compare(key, a[place]) == 0
  {
    var low, high := 0, |a| - 1;
    while low <= high
      invariant 0 <= low <= high + 1 <= |a|
      invariant forall i | 0 <= i < low :: compare(key, a[i]) > 0
      invariant forall i | high < i < |a| :: compare(key, a[i]) < 0
      decreases high - low
    {
      var mid := (low + high) / 2;
      var result := compare(key, a[mid]);
      if result < 0 {
        high := mid - 1;
      } else if result > 0 {
        low := mid + 1;
      } else {
        return true, mid;
      }
    }
    return false, high + 1;
  }
}
