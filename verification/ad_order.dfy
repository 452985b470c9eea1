/**
 * The ORDER BY of the listing query: ads ordered by creation time or by price,
 * ascending or descending. Ties may come back in any order; the model sorts by
 * insertion but promises only "sorted by the key" and "same ads".
 */
module AdOrder {
  import opened Model

  /** `a.price` when sorting by "price", `a.created_at` for any other value. */
  function SortKey(ad: Ad, sortBy: string): int {
    if sortBy == "price" then ad.price else ad.createdAt
  }

  /** `a` may come before `b`: DESC when the order is "desc", ASC for any other value. */
  predicate InOrder(a: Ad, b: Ad, sortBy: string, order: string) {
    if order == "desc" then SortKey(a, sortBy) >= SortKey(b, sortBy)
    else SortKey(a, sortBy) <= SortKey(b, sortBy)
  }

  predicate SortedBy(s: seq<Ad>, sortBy: string, order: string) {
    forall i, j :: 0 <= i < j < |s| ==> InOrder(s[i], s[j], sortBy, order)
  }

  function Insert(x: Ad, s: seq<Ad>, sortBy: string, order: string): (r: seq<Ad>)
    requires SortedBy(s, sortBy, order)
    ensures SortedBy(r, sortBy, order)
    ensures multiset(r) == multiset(s) + multiset{x}
    ensures |r| == |s| + 1
    ensures forall k :: 0 <= k < |r| ==> r[k] == x || r[k] in s
    decreases |s|
  {
    if |s| == 0 then [x]
    else if InOrder(x, s[0], sortBy, order) then [x] + s
    else
      var t := Insert(x, s[1..], sortBy, order);
      assert s == [s[0]] + s[1..];
      assert forall k :: 0 <= k < |t| ==> InOrder(s[0], t[k], sortBy, order);
      [s[0]] + t
  }

  /** The ads of `s`, ordered by the key in the given direction. */
  function Sort(s: seq<Ad>, sortBy: string, order: string): (r: seq<Ad>)
    ensures SortedBy(r, sortBy, order)
    ensures multiset(r) == multiset(s)
    ensures |r| == |s|
    decreases |s|
  {
    if |s| == 0 then []
    else
      assert s == s[..|s| - 1] + [s[|s| - 1]];
      Insert(s[|s| - 1], Sort(s[..|s| - 1], sortBy, order), sortBy, order)
  }

  /** Any slice of a sorted sequence is sorted. */
  lemma SliceSorted(s: seq<Ad>, lo: int, hi: int, sortBy: string, order: string)
    requires 0 <= lo <= hi <= |s| && SortedBy(s, sortBy, order)
    ensures SortedBy(s[lo..hi], sortBy, order)
  {
    forall i, j | 0 <= i < j < hi - lo
      ensures InOrder(s[lo..hi][i], s[lo..hi][j], sortBy, order)
    {
      assert s[lo..hi][i] == s[lo + i] && s[lo..hi][j] == s[lo + j];
    }
  }
}
