/**
 * The listing path end to end: the handler's normalised parameters as they
 * reach the ad store.
 */
module Listing {
  import opened Model
  import opened MarketHandler
  import opened MarketDb

  /** Every normalised query names a real page: the store's page lemmas apply to it. */
  lemma NormalizedQueryHasPage(db: MarketDb, q: RawQuery)
    ensures var p := NormalizeQuery(q);
      var n, skip := |Filter(db.ads, p, db.userIds)|, Offset(p.page, p.limit);
      |Rows(db, p)| == if skip >= n then 0 else if n - skip < p.limit then n - skip else p.limit
  {
    RowsCount(db, NormalizeQuery(q));
  }

  /**
   * The overflowing page survives normalisation: a client that sends page
   * 4611686018427387905 and limit 4 gets the first page back from the store as written,
   * where the intended query returns nothing.
   */
  lemma HugePageReachesTheStore(db: MarketDb)
    requires |db.ads| < TwoTo64
    ensures var p := ListParams(0x4000_0000_0000_0001, 4, "date", "asc", 0, 1000000);
      && NormalizeQuery(Render(p)) == p
      && RowsAsWritten(db, p) == Rows(db, p.(page := 1))
      && Rows(db, p) == []
  {
    var p := ListParams(0x4000_0000_0000_0001, 4, "date", "asc", 0, 1000000);
    NormalizeRender(p);
    OffsetOverflowRepeatsFirstPage(db, p);
  }
}
