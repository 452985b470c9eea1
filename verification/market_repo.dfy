/** The in-memory ad store of the tests: saved ads are appended, the listing is canned. */
module MarketRepoMock {
  import opened Wrappers
  import opened Model

  datatype MockMarketRepo = MockMarketRepo(ads: seq<Ad>, adsResponse: seq<AdsListResponse>)

  /** `SaveAd`: never fails, appends the ad and hands it back unchanged. */
  function SaveAd(repo: MockMarketRepo, ad: Ad): (r: (Result<Ad, Error>, MockMarketRepo))
    ensures r.0 == Success(ad)
    ensures |r.1.ads| == |repo.ads| + 1 && r.1.ads[..|repo.ads|] == repo.ads && r.1.ads[|repo.ads|] == ad
    ensures r.1.adsResponse == repo.adsResponse
  {
    (Success(ad), repo.(ads := repo.ads + [ad]))
  }

  /** `GetAdsList`: ignores the query and the requester and returns the canned rows; the store is not touched. */
  function GetAdsList(repo: MockMarketRepo, params: ListParams, userId: string): (r: Result<seq<AdsListResponse>, Error>)
    ensures r == Success(repo.adsResponse)
  {
    Success(repo.adsResponse)
  }
}
