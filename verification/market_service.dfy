/**
 * Ad rules: the ordered field checks of `NewAd`, the stamping of a new ad, and
 * the empty-list condition of `AdsList`.
 */
module MarketService {
  import opened Wrappers
  import opened Text
  import opened Model
  import opened Config
  import opened PathExt
  import opened UserRepoMock
  import opened MarketRepoMock

  /** First rule: title, description and image must be non-empty and the price at least the floor. */
  predicate FieldsPresent(ad: Ad, policy: AdPolicy) {
    ad.title != "" && ad.description != "" && ad.imageUrl != "" && ad.price as real >= policy.priceMin
  }

  predicate TitleFits(ad: Ad, policy: AdPolicy) {
    LengthWithin(ad.title, policy.minLengthTitle, policy.maxLengthTitle)
  }

  predicate DescriptionFits(ad: Ad, policy: AdPolicy) {
    LengthWithin(ad.description, policy.minLengthDescription, policy.maxLengthDescription)
  }

  /** The extension looked up: that of the lowered image URL. */
  function ImageExt(ad: Ad): string {
    Ext(ToLower(ad.imageUrl))
  }

  predicate ImageAllowed(ad: Ad, policy: AdPolicy) {
    Lookup(policy.allowedImgTypesMap, ImageExt(ad))
  }

  /** The validation part of `NewAd`: the four rules in order, the first broken one reported. */
  function ValidateAd(ad: Ad, policy: AdPolicy): (r: Option<Error>)
    ensures r.None? <==> FieldsPresent(ad, policy) && TitleFits(ad, policy) && DescriptionFits(ad, policy) && ImageAllowed(ad, policy)
    ensures r == Some(MissingFieldsOrLowPrice) <==> !FieldsPresent(ad, policy)
    ensures r == Some(InvalidTitleLength) <==> FieldsPresent(ad, policy) && !TitleFits(ad, policy)
    ensures r == Some(InvalidDescriptionLength) <==> FieldsPresent(ad, policy) && TitleFits(ad, policy) && !DescriptionFits(ad, policy)
    ensures r == Some(ImageTypeNotAllowed(ImageExt(ad)))
            <==> FieldsPresent(ad, policy) && TitleFits(ad, policy) && DescriptionFits(ad, policy) && !ImageAllowed(ad, policy)
  {
    if ad.title == "" || ad.description == "" || ad.imageUrl == "" || (ad.price as real) < policy.priceMin then
      Some(MissingFieldsOrLowPrice)
    else if |ad.title| < policy.minLengthTitle || |ad.title| > policy.maxLengthTitle then
      Some(InvalidTitleLength)
    else if |ad.description| < policy.minLengthDescription || |ad.description| > policy.maxLengthDescription then
      Some(InvalidDescriptionLength)
    else
      var ext := Ext(ToLower(ad.imageUrl));
      if !Lookup(policy.allowedImgTypesMap, ext) then Some(ImageTypeNotAllowed(ext)) else None
  }

  /**
   * `NewAd`. `now` is the clock reading and `freshId` what `uuid.New` returned;
   * the author is looked up in the user store, the ad saved in the ad store.
   */
  method NewAd(ad: Ad, policy: AdPolicy, userId: Uuid, now: int, freshId: Uuid, users: MockUserRepo, market: MockMarketRepo)
    returns (r: Result<Ad, Error>, market': MockMarketRepo)
    // a validation failure is reported as is, before any store is consulted
    ensures ValidateAd(ad, policy).Some? ==> r == Failure(ValidateAd(ad, policy).value) && market' == market
    // an unknown author is an error and nothing is saved
    ensures ValidateAd(ad, policy).None? && !HasUuid(users, userId.text)
            ==> r == Failure(AuthorLookupFailed(NotFound)) && market' == market
    ensures r.Success? <==> ValidateAd(ad, policy).None? && HasUuid(users, userId.text)
    // success: the caller's fields are kept, the stamps are set, exactly that ad is appended
    ensures r.Success? ==> && r.value.title == ad.title && r.value.description == ad.description
                           && r.value.imageUrl == ad.imageUrl && r.value.price == ad.price && r.value.id == ad.id
    ensures r.Success? ==> r.value.userId == userId && r.value.uuid == freshId && r.value.createdAt == now
    ensures r.Success? ==> exists author :: author in users.users.Values && author.uuid.text == userId.text
                                          && r.value.username == author.login
    ensures r.Success? ==> market'.ads == market.ads + [r.value] && market'.adsResponse == market.adsResponse
  {
    var invalid := ValidateAd(ad, policy);
    if invalid.Some? {
      return Failure(invalid.value), market;
    }
    var stamped := ad.(createdAt := now, userId := userId);
    var author := FindByUUID(users, userId.text);
    if author.Failure? {
      return Failure(AuthorLookupFailed(author.error)), market;
    }
    stamped := stamped.(username := author.value.login, uuid := freshId);
    var saved := SaveAd(market, stamped);
    r, market' := saved.0, saved.1;
  }

  /** `AdsList`: store errors are wrapped, an empty list is its own error, any other list is passed through. */
  function AdsList(params: ListParams, id: Uuid, getAdsList: (ListParams, string) -> Result<seq<AdsListResponse>, Error>)
    : (r: Result<seq<AdsListResponse>, Error>)
    ensures getAdsList(params, id.text).Failure? ==> r == Failure(ListFailed(getAdsList(params, id.text).error))
    ensures getAdsList(params, id.text) == Success([]) ==> r == Failure(ListIsEmpty)
    ensures r.Success? <==> getAdsList(params, id.text).Success? && getAdsList(params, id.text).value != []
    ensures r.Success? ==> r.value == getAdsList(params, id.text).value
  {
    match getAdsList(params, id.text)
    case Failure(e) => Failure(ListFailed(e))
    case Success(ads) => if |ads| == 0 then Failure(ListIsEmpty) else Success(ads)
  }

  /** Over the in-memory store, the listing is its canned rows, or the empty-list error when there are none. */
  lemma AdsListOverMock(params: ListParams, id: Uuid, repo: MockMarketRepo)
    ensures AdsList(params, id, (p, u) => GetAdsList(repo, p, u))
            == if repo.adsResponse == [] then Failure(ListIsEmpty) else Success(repo.adsResponse)
  {
  }

  /** The extension check ignores case: an upper-case spelling of an allowed type passes. */
  lemma ImageCheckIgnoresCase(ad: Ad, policy: AdPolicy)
    ensures ImageAllowed(ad, policy) <==> Lookup(policy.allowedImgTypesMap, ToLower(Ext(ad.imageUrl)))
  {
    ExtOfLower(ad.imageUrl);
  }

  /** The policy of the ad tests. */
  function TestPolicy(): AdPolicy {
    AdPolicy(3, 100, 10, 1000, [".jpg", ".png"], 0.01, map[".jpg" := true, ".png" := true])
  }

  /** From the ad tests: a two-rune title is too short. */
  lemma ShortTitleRejected(valid: Ad)
    requires valid.title == "Valid title" && valid.description == "Valid description here" && valid.price == 10
    ensures ValidateAd(valid.(title := "Hi", imageUrl := "image.jpg"), TestPolicy()) == Some(InvalidTitleLength)
  {
  }

  /** From the ad tests: a ".zip" image is refused, and the error names the extension. */
  lemma ZipImageRejected(valid: Ad)
    requires valid.title == "Valid title" && valid.description == "Valid description here" && valid.price == 10
    ensures ValidateAd(valid.(imageUrl := "image.zip"), TestPolicy()) == Some(ImageTypeNotAllowed(".zip"))
  {
    var ad := valid.(imageUrl := "image.zip");
    ExtOfImageNames();
    ToLowerOfLower("image.zip");
    assert ImageExt(ad) == ".zip";
  }

  /** The lowered URL "photo.JPG" has the extension ".jpg". */
  lemma LoweredJpgExt()
    ensures Ext(ToLower("photo.JPG")) == ".jpg"
  {
    assert ToLower("photo.JPG") == "photo.jpg";
    ExtUnique("photo.jpg", ".jpg");
  }

  /** An upper-case ".JPG" passes when ".jpg" is allowed. */
  lemma UpperCaseJpgAccepted(valid: Ad)
    requires valid.title == "Valid title" && valid.description == "Valid description here" && valid.price == 10
    ensures ValidateAd(valid.(imageUrl := "photo.JPG"), TestPolicy()).None?
  {
    LoweredJpgExt();
  }
}
