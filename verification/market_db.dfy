/**
 * The SQL-backed ad store, as the meaning of its queries over the stored rows:
 * saving appends a row; listing joins on existing authors, keeps the price range,
 * orders, skips and limits, then annotates every row for the requester.
 */
module MarketDb {
  import opened Wrappers
  import opened Model
  import opened StrConv
  import opened AdOrder

  /** The `ads` table in insertion order, and the UUID texts present in the `users` table. */
  datatype MarketDb = MarketDb(ads: seq<Ad>, userIds: set<string>)

  /**
   * `SaveAd`. `execFails` says whether the INSERT failed. The row stores every column
   * but the author's login; the row id is the next one.
   */
  function SaveAd(db: MarketDb, ad: Ad, execFails: bool): (r: (Result<Ad, Error>, MarketDb))
    ensures !execFails ==> r.0 == Success(ad)
    ensures !execFails ==> r.1.ads == db.ads + [ad.(id := |db.ads| + 1, username := "")] && r.1.userIds == db.userIds
    ensures execFails ==> r.0.Failure? && r.1 == db
  {
    if execFails then (Failure(DatabaseError), db)
    else (Success(ad), db.(ads := db.ads + [ad.(id := |db.ads| + 1, username := "")]))
  }

  /** The JOIN and the WHERE clause: the author exists and the price is in the inclusive range. */
  predicate Selected(ad: Ad, params: ListParams, userIds: set<string>) {
    ad.userId.text in userIds && params.minPrice <= ad.price <= params.maxPrice
  }

  /** The selected rows, in table order. */
  function Filter(ads: seq<Ad>, params: ListParams, userIds: set<string>): (r: seq<Ad>)
    ensures forall k :: 0 <= k < |r| ==> Selected(r[k], params, userIds)
    ensures forall a :: multiset(r)[a] == if Selected(a, params, userIds) then multiset(ads)[a] else 0
    ensures |r| <= |ads|
    decreases |ads|
  {
    if |ads| == 0 then []
    else
      var init, last := ads[..|ads| - 1], ads[|ads| - 1];
      assert ads == init + [last];
      var kept := Filter(init, params, userIds);
      if Selected(last, params, userIds) then kept + [last] else kept
  }

  /** SQLite's LIMIT/OFFSET: a negative offset counts as 0, a negative limit as no limit. */
  function Window(s: seq<Ad>, offset: int, limit: int): (w: seq<Ad>)
    ensures var start := if offset < 0 then 0 else offset;
      && (start >= |s| ==> w == [])
      && (start < |s| ==> |w| == (if limit < 0 || start + limit > |s| then |s| - start else limit))
      && (start < |s| ==> w == s[start..start + |w|])
  {
    var start := if offset < 0 then 0 else offset;
    if start >= |s| then []
    else if limit < 0 || start + limit > |s| then s[start..]
    else s[start..start + limit]
  }

  /** The number of rows skipped for a page: pages are numbered from 1, and each ends where the next begins. */
  function Offset(page: int, limit: int): (o: int)
    ensures page >= 1 && limit >= 0 ==> o >= 0
    ensures page == 1 ==> o == 0
    ensures o + limit == page * limit
  {
    (page - 1) * limit
  }

  /** The rows the query returns: joined and filtered, ordered, then the page's window. */
  function Rows(db: MarketDb, params: ListParams): (rows: seq<Ad>)
    ensures forall k :: 0 <= k < |rows| ==> Selected(rows[k], params, db.userIds)
    ensures SortedBy(rows, params.sortBy, params.order)
    ensures multiset(rows) <= multiset(db.ads)
  {
    var matching := Sort(Filter(db.ads, params, db.userIds), params.sortBy, params.order);
    WindowKeepsOrder(matching, Offset(params.page, params.limit), params.limit, params.sortBy, params.order);
    FilterSubMultiset(db.ads, params, db.userIds);
    Window(matching, Offset(params.page, params.limit), params.limit)
  }

  lemma WindowKeepsOrder(s: seq<Ad>, offset: int, limit: int, sortBy: string, order: string)
    requires SortedBy(s, sortBy, order)
    ensures SortedBy(Window(s, offset, limit), sortBy, order)
    ensures multiset(Window(s, offset, limit)) <= multiset(s)
  {
    var w := Window(s, offset, limit);
    var start := if offset < 0 then 0 else offset;
    if start < |s| {
      SliceSorted(s, start, start + |w|, sortBy, order);
      SliceMultiset(s, start, start + |w|);
    }
  }

  lemma SliceMultiset(s: seq<Ad>, lo: int, hi: int)
    requires 0 <= lo <= hi <= |s|
    ensures multiset(s[lo..hi]) <= multiset(s)
  {
    assert s == s[..lo] + s[lo..hi] + s[hi..];
  }

  lemma FilterSubMultiset(ads: seq<Ad>, params: ListParams, userIds: set<string>)
    ensures multiset(Filter(ads, params, userIds)) <= multiset(ads)
  {
  }

  /** One listing row for the requester: owned iff the author's UUID text is the requester's. */
  function ToResponse(ad: Ad, requester: string, author: User): AdsListResponse {
    AdsListResponse(ad.title, ad.description, ad.imageUrl, ad.price, ad.userId.text == requester, author.login)
  }

  /**
   * The scan loop: every row is looked up by its author's UUID text; the first
   * failed lookup ends the call with an error and no partial list.
   */
  function Annotate(rows: seq<Ad>, requester: string, findByUuid: string -> Result<User, Error>)
    : (r: Result<seq<AdsListResponse>, Error>)
    ensures r.Success? <==> forall k :: 0 <= k < |rows| ==> findByUuid(rows[k].userId.text).Success?
    ensures r.Success? ==> |r.value| == |rows|
    ensures r.Success? ==> forall k :: 0 <= k < |rows| ==>
      r.value[k] == ToResponse(rows[k], requester, findByUuid(rows[k].userId.text).value)
    ensures r.Failure? ==> exists k :: (0 <= k < |rows| && findByUuid(rows[k].userId.text).Failure?
      && r.error == UsernameLookupFailed(findByUuid(rows[k].userId.text).error))
    decreases |rows|
  {
    if |rows| == 0 then Success([])
    else
      match findByUuid(rows[0].userId.text)
      case Failure(e) => Failure(UsernameLookupFailed(e))
      case Success(author) =>
        match Annotate(rows[1..], requester, findByUuid)
        case Failure(e) =>
          var k :| 0 <= k < |rows[1..]| && findByUuid(rows[1..][k].userId.text).Failure?
            && e == UsernameLookupFailed(findByUuid(rows[1..][k].userId.text).error);
          assert rows[1..][k] == rows[k + 1];
          Failure(e)
        case Success(rest) =>
          assert forall k :: 1 <= k < |rows| ==> rows[k] == rows[1..][k - 1];
          Success([ToResponse(rows[0], requester, author)] + rest)
  }

  /** `GetAdsList(params, user_id)`; `findByUuid` is the user store's lookup. */
  function GetAdsList(db: MarketDb, params: ListParams, userId: string, findByUuid: string -> Result<User, Error>)
    : (r: Result<seq<AdsListResponse>, Error>)
    ensures r.Success? <==> forall k :: 0 <= k < |Rows(db, params)| ==> findByUuid(Rows(db, params)[k].userId.text).Success?
    ensures r.Success? ==> |r.value| == |Rows(db, params)|
    ensures r.Success? ==> forall k :: 0 <= k < |r.value| ==>
      r.value[k] == ToResponse(Rows(db, params)[k], userId, findByUuid(Rows(db, params)[k].userId.text).value)
    ensures r.Failure? ==> exists k :: (0 <= k < |Rows(db, params)| && findByUuid(Rows(db, params)[k].userId.text).Failure?
      && r.error == UsernameLookupFailed(findByUuid(Rows(db, params)[k].userId.text).error))
    ensures r.Success? ==> forall k :: 0 <= k < |r.value| ==> params.minPrice <= r.value[k].price <= params.maxPrice
  {
    var rows := Rows(db, params);
    var r := Annotate(rows, userId, findByUuid);
    assert r.Success? ==> forall k :: 0 <= k < |r.value| ==> Selected(rows[k], params, db.userIds);
    r
  }

  /** `rows` is `skip` rows into some key-ordered arrangement of `matching`. */
  ghost predicate IsPageOf(rows: seq<Ad>, matching: seq<Ad>, skip: int, sortBy: string, order: string) {
    exists sorted :: && SortedBy(sorted, sortBy, order)
                     && multiset(sorted) == multiset(matching)
                     && 0 <= skip && skip + |rows| <= |sorted|
                     && rows == sorted[skip..skip + |rows|]
  }

  lemma PageWitness(rows: seq<Ad>, matching: seq<Ad>, sorted: seq<Ad>, skip: int, sortBy: string, order: string)
    requires SortedBy(sorted, sortBy, order) && multiset(sorted) == multiset(matching)
    requires 0 <= skip && skip + |rows| <= |sorted| && rows == sorted[skip..skip + |rows|]
    ensures IsPageOf(rows, matching, skip, sortBy, order)
  {
  }

  /** A page holds `limit` rows, fewer on the last page, none past it. */
  lemma RowsCount(db: MarketDb, params: ListParams)
    requires params.page >= 1 && params.limit >= 1
    ensures var n, skip := |Filter(db.ads, params, db.userIds)|, Offset(params.page, params.limit);
      |Rows(db, params)| == if skip >= n then 0 else if n - skip < params.limit then n - skip else params.limit
  {
  }

  /**
   * The page semantics, stated without fixing how ties are ordered: the rows are a
   * contiguous run of some key-ordered arrangement of the matching ads, starting
   * after (page - 1) * limit of them.
   */
  lemma RowsArePage(db: MarketDb, params: ListParams)
    requires params.page >= 1 && params.limit >= 1
    ensures var skip := Offset(params.page, params.limit);
      skip < |Filter(db.ads, params, db.userIds)| ==>
      IsPageOf(Rows(db, params), Filter(db.ads, params, db.userIds), skip, params.sortBy, params.order)
  {
    var matching := Filter(db.ads, params, db.userIds);
    var sorted := Sort(matching, params.sortBy, params.order);
    var skip := Offset(params.page, params.limit);
    var rows := Window(sorted, skip, params.limit);
    if skip < |sorted| {
      PageWitness(rows, matching, sorted, skip, params.sortBy, params.order);
    }
  }

  /** With 25 matching ads, page 2 of size 10 is the 11th to the 20th of them. */
  lemma SecondPageOfTen(db: MarketDb, params: ListParams)
    requires params.page == 2 && params.limit == 10
    requires |Filter(db.ads, params, db.userIds)| == 25
    ensures |Rows(db, params)| == 10
    ensures var sorted := Sort(Filter(db.ads, params, db.userIds), params.sortBy, params.order);
      Rows(db, params) == sorted[10..20]
  {
    var sorted := Sort(Filter(db.ads, params, db.userIds), params.sortBy, params.order);
    assert Rows(db, params) == Window(sorted, 10, 10);
  }

  /** An anonymous requester (the nil UUID) owns no row, as long as no ad is authored by the nil UUID. */
  lemma AnonymousOwnsNothing(db: MarketDb, params: ListParams, findByUuid: string -> Result<User, Error>)
    requires forall k :: 0 <= k < |db.ads| ==> db.ads[k].userId != NilUuid
    ensures var r := GetAdsList(db, params, NilUuid.text, findByUuid);
      r.Success? ==> forall k :: 0 <= k < |r.value| ==> !r.value[k].owner
  {
    var rows := Rows(db, params);
    var r := GetAdsList(db, params, NilUuid.text, findByUuid);
    if r.Success? {
      forall k | 0 <= k < |r.value|
        ensures !r.value[k].owner
      {
        assert rows[k] in multiset(db.ads);
        var j :| 0 <= j < |db.ads| && db.ads[j] == rows[k];
      }
    }
  }

  /** When every author in the user table can be looked up, listing never fails. */
  lemma ListingSucceedsWhenAuthorsResolve(db: MarketDb, params: ListParams, userId: string, findByUuid: string -> Result<User, Error>)
    requires forall id :: id in db.userIds ==> findByUuid(id).Success?
    ensures GetAdsList(db, params, userId, findByUuid).Success?
  {
    var rows := Rows(db, params);
    assert forall k :: 0 <= k < |rows| ==> rows[k].userId.text in db.userIds;
  }

  // ---- The page offset as written: Go's 64-bit `int` arithmetic wraps around. ----

  const TwoTo64: int := 0x1_0000_0000_0000_0000

  /** Two's-complement wrap-around of Go's `int`. */
  function WrapInt(n: int): (w: int)
    ensures InIntRange(w)
    ensures InIntRange(n) ==> w == n
    ensures (w - n) % TwoTo64 == 0
  {
    var m := n - MinInt;
    assert m == (m / TwoTo64) * TwoTo64 + m % TwoTo64;
    (n - MinInt) % TwoTo64 + MinInt
  }

  /**
   * `offset := (params.Page - 1) * params.Limit`, computed in 64 bits: the intended
   * offset wherever that fits, and otherwise a 64-bit value congruent to it.
   */
  function OffsetAsWritten(page: int, limit: int): (o: int)
    ensures InIntRange(o)
    ensures (o - Offset(page, limit)) % TwoTo64 == 0
    ensures InIntRange(Offset(page, limit)) ==> o == Offset(page, limit)
  {
    WrapInt((page - 1) * limit)
  }

  /**
   * The rows the query returns with the wrapped offset: still selected, ordered rows
   * of the table, and the intended page wherever the offset fits in 64 bits.
   */
  function RowsAsWritten(db: MarketDb, params: ListParams): (rows: seq<Ad>)
    ensures forall k :: 0 <= k < |rows| ==> Selected(rows[k], params, db.userIds)
    ensures SortedBy(rows, params.sortBy, params.order)
    ensures multiset(rows) <= multiset(db.ads)
    ensures InIntRange(Offset(params.page, params.limit)) ==> rows == Rows(db, params)
  {
    var matching := Sort(Filter(db.ads, params, db.userIds), params.sortBy, params.order);
    WindowKeepsOrder(matching, OffsetAsWritten(params.page, params.limit), params.limit, params.sortBy, params.order);
    FilterSubMultiset(db.ads, params, db.userIds);
    Window(matching, OffsetAsWritten(params.page, params.limit), params.limit)
  }

  /**
   * Page 2^62 + 1 with limit 4 asks for rows 2^64 onwards, which do not exist, but the
   * written offset wraps to 0 and the first page comes back instead.
   */
  lemma OffsetOverflowRepeatsFirstPage(db: MarketDb, params: ListParams)
    requires params.page == 0x4000_0000_0000_0001 && params.limit == 4
    requires |db.ads| < TwoTo64
    ensures InIntRange(params.page)
    ensures RowsAsWritten(db, params) == Rows(db, params.(page := 1))
    ensures Rows(db, params) == []
  {
    assert OffsetAsWritten(params.page, params.limit) == 0;
    assert Filter(db.ads, params, db.userIds) == Filter(db.ads, params.(page := 1), db.userIds) by {
      FilterIgnoresPage(db.ads, params, 1, db.userIds);
    }
  }

  lemma FilterIgnoresPage(ads: seq<Ad>, params: ListParams, page: int, userIds: set<string>)
    ensures Filter(ads, params, userIds) == Filter(ads, params.(page := page), userIds)
    decreases |ads|
  {
    if |ads| > 0 {
      FilterIgnoresPage(ads[..|ads| - 1], params, page, userIds);
    }
  }
}
