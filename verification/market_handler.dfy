/**
 * The decisions the market HTTP handlers take before calling the service:
 * turning raw query strings into listing parameters (a query is never
 * rejected, bad values fall back to defaults), reading the requester id
 * from the request context, and the user-id gate in front of `NewAd`.
 */
module MarketHandler {
  import opened Wrappers
  import opened Model
  import opened StrConv

  /** The query values of a listing request as `url.Values.Get` returns them: "" when a key is absent. */
  datatype RawQuery = RawQuery(
    page: string,
    limit: string,
    sortBy: string,
    order: string,
    minPrice: string,
    maxPrice: string)

  const DefaultPage: int := 1
  const DefaultLimit: int := 10
  const DefaultSortBy: string := "date"
  const DefaultOrder: string := "asc"
  const DefaultMinPrice: int := 0
  const DefaultMaxPrice: int := 1000000

  /** The shape every listing query has once normalised. */
  predicate Normalized(p: ListParams) {
    && InIntRange(p.page) && p.page >= 1
    && InIntRange(p.limit) && p.limit >= 1
    && (p.sortBy == "date" || p.sortBy == "price")
    && (p.order == "asc" || p.order == "desc")
    && InIntRange(p.minPrice)
    && InIntRange(p.maxPrice) && p.maxPrice >= 0
  }

  /** A parsed value that is at least `floor`, if the text parses. */
  predicate ParsesAtLeast(s: string, floor: int) {
    Atoi(s).Some? && Atoi(s).value >= floor
  }

  /** `Atoi` of a numeric field, kept when it parses to at least `floor`, else `fallback`. */
  function AtLeastOr(s: string, floor: int, fallback: int): (n: int)
    requires InIntRange(fallback) && fallback >= floor
    ensures InIntRange(n) && n >= floor
    ensures ParsesAtLeast(s, floor) ==> n == Atoi(s).value
    ensures !ParsesAtLeast(s, floor) ==> n == fallback
  {
    var v := Atoi(s);
    if v.None? || v.value < floor then fallback else v.value
  }

  /** A text field restricted to two values, the first being the default. */
  function OneOf(s: string, default: string, other: string): (r: string)
    ensures r == default || r == other
    ensures s == default || s == other ==> r == s
    ensures s != default && s != other ==> r == default
  {
    if s != default && s != other then default else s
  }

  /** The handler's query normalisation: each field keeps its parsed value when acceptable, else takes its default. */
  function NormalizeQuery(q: RawQuery): (p: ListParams)
    ensures Normalized(p)
    ensures ParsesAtLeast(q.page, 1) ==> p.page == Atoi(q.page).value
    ensures !ParsesAtLeast(q.page, 1) ==> p.page == DefaultPage
    ensures ParsesAtLeast(q.limit, 1) ==> p.limit == Atoi(q.limit).value
    ensures !ParsesAtLeast(q.limit, 1) ==> p.limit == DefaultLimit
    ensures q.sortBy == "date" || q.sortBy == "price" ==> p.sortBy == q.sortBy
    ensures q.sortBy != "date" && q.sortBy != "price" ==> p.sortBy == DefaultSortBy
    ensures q.order == "asc" || q.order == "desc" ==> p.order == q.order
    ensures q.order != "asc" && q.order != "desc" ==> p.order == DefaultOrder
    // a parsed negative minimum price is kept
    ensures Atoi(q.minPrice).Some? ==> p.minPrice == Atoi(q.minPrice).value
    ensures Atoi(q.minPrice).None? ==> p.minPrice == DefaultMinPrice
    ensures ParsesAtLeast(q.maxPrice, 0) ==> p.maxPrice == Atoi(q.maxPrice).value
    ensures !ParsesAtLeast(q.maxPrice, 0) ==> p.maxPrice == DefaultMaxPrice
  {
    var minPrice := Atoi(q.minPrice);
    ListParams(
      AtLeastOr(q.page, 1, DefaultPage),
      AtLeastOr(q.limit, 1, DefaultLimit),
      OneOf(q.sortBy, DefaultSortBy, "price"),
      OneOf(q.order, DefaultOrder, "desc"),
      if minPrice.None? then DefaultMinPrice else minPrice.value,
      AtLeastOr(q.maxPrice, 0, DefaultMaxPrice))
  }

  /** The query a client would send for given parameters. */
  function Render(p: ListParams): RawQuery {
    RawQuery(Itoa(p.page), Itoa(p.limit), p.sortBy, p.order, Itoa(p.minPrice), Itoa(p.maxPrice))
  }

  /** Normalised parameters are fixed points: sending them again changes nothing. */
  lemma NormalizeRender(p: ListParams)
    requires Normalized(p)
    ensures NormalizeQuery(Render(p)) == p
  {
    AtoiItoa(p.page);
    AtoiItoa(p.limit);
    AtoiItoa(p.minPrice);
    AtoiItoa(p.maxPrice);
  }

  /** Normalising twice is normalising once. */
  lemma NormalizeIdempotent(q: RawQuery)
    ensures NormalizeQuery(Render(NormalizeQuery(q))) == NormalizeQuery(q)
  {
    NormalizeRender(NormalizeQuery(q));
  }

  /** An empty query yields the defaults. */
  lemma EmptyQueryDefaults()
    ensures NormalizeQuery(RawQuery("", "", "", "", "", ""))
            == ListParams(DefaultPage, DefaultLimit, DefaultSortBy, DefaultOrder, DefaultMinPrice, DefaultMaxPrice)
  {
    AtoiRejects();
  }

  /** Zero and negative pages and limits fall back; a negative minimum price survives, a negative maximum does not. */
  lemma NormalizeExamples()
    ensures NormalizeQuery(RawQuery("0", "-3", "name", "DESC", "-12", "-12"))
            == ListParams(1, 10, "date", "asc", -12, 1000000)
  {
    assert Atoi("0") == Some(0) by { assert Unsigned("0") == "0"; }
    assert Atoi("-3") == Some(-3) by { assert Unsigned("-3") == "3"; }
    assert Atoi("-12") == Some(-12) by { AtoiAccepts(); }
  }

  /** A context value: the user id is stored as a string, but the context can hold anything. */
  datatype CtxValue = Str(s: string) | NonString

  /** The request context, keyed by context key. */
  type Context = map<string, CtxValue>

  /** `UserIDKey`, the context key the auth middlewares write and the handlers read. */
  const UserIDKey: string := "user_id"

  /** The string stored under `UserIDKey`, if there is one. */
  function UserIdText(ctx: Context): (t: Option<string>)
    ensures t.Some? ==> UserIDKey in ctx && ctx[UserIDKey] == Str(t.value)
    ensures t.None? ==> UserIDKey !in ctx || ctx[UserIDKey] == NonString
  {
    if UserIDKey in ctx && ctx[UserIDKey].Str? then Some(ctx[UserIDKey].s) else None
  }

  /**
   * The requester of a listing: the parsed context user id, or the nil id when the
   * value is absent, not a string, or not a valid UUID. `parse` is `uuid.Parse`.
   */
  function RequesterId(ctx: Context, parse: string -> Option<Uuid>): (id: Uuid)
    ensures UserIdText(ctx).None? ==> id == NilUuid
    ensures UserIdText(ctx).Some? && parse(UserIdText(ctx).value).None? ==> id == NilUuid
    ensures UserIdText(ctx).Some? && parse(UserIdText(ctx).value).Some? ==> id == parse(UserIdText(ctx).value).value
    ensures id != NilUuid ==> UserIdText(ctx).Some? && parse(UserIdText(ctx).value) == Some(id)
  {
    match UserIdText(ctx)
    case None => NilUuid
    case Some(text) =>
      match parse(text)
      case None => NilUuid
      case Some(u) => u
  }

  /** An HTTP error reply. */
  datatype HttpError = HttpError(status: int, message: string)

  const StatusBadRequest: int := 400

  /**
   * The checks of the `NewAd` handler before the service is called: the body must
   * decode (`body` is the decoded ad, None on a decoding error), then the context
   * user id must be a string, then it must parse.
   */
  function NewAdGate(body: Option<Ad>, ctx: Context, parse: string -> Option<Uuid>): (r: Result<(Ad, Uuid), HttpError>)
    ensures body.None? ==> r == Failure(HttpError(StatusBadRequest, "bad request in body"))
    ensures body.Some? && UserIdText(ctx).None? ==> r == Failure(HttpError(StatusBadRequest, "invalid user_id in context"))
    ensures body.Some? && UserIdText(ctx).Some? && parse(UserIdText(ctx).value).None?
            ==> r == Failure(HttpError(StatusBadRequest, "invalid user_id format"))
    ensures r.Success? <==> body.Some? && UserIdText(ctx).Some? && parse(UserIdText(ctx).value).Some?
    ensures r.Success? ==> r.value == (body.value, parse(UserIdText(ctx).value).value)
    ensures r.Failure? ==> r.error.status == StatusBadRequest
  {
    if body.None? then Failure(HttpError(StatusBadRequest, "bad request in body"))
    else match UserIdText(ctx)
      case None => Failure(HttpError(StatusBadRequest, "invalid user_id in context"))
      case Some(text) =>
        match parse(text)
        case None => Failure(HttpError(StatusBadRequest, "invalid user_id format"))
        case Some(u) => Success((body.value, u))
  }

  /**
   * The two handlers read the context alike: whenever `NewAd` lets a request through,
   * the listing would see the same requester, and a non-nil listing requester is
   * always let through.
   */
  lemma GateAgreesWithRequester(ad: Ad, ctx: Context, parse: string -> Option<Uuid>)
    ensures NewAdGate(Some(ad), ctx, parse).Success? ==> NewAdGate(Some(ad), ctx, parse).value.1 == RequesterId(ctx, parse)
    ensures RequesterId(ctx, parse) != NilUuid ==> NewAdGate(Some(ad), ctx, parse) == Success((ad, RequesterId(ctx, parse)))
  {
  }
}
