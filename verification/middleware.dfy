/**
 * The authorization middlewares: the bearer-header gate and what each
 * middleware hands to the next handler. Token validation is an oracle
 * `string -> Option<Uuid>` (None: invalid or expired).
 */
module Middleware {
  import opened Wrappers
  import opened Model
  import opened MarketHandler
  import Split

  const BearerPrefix: string := "Bearer "
  const StatusUnauthorized: int := 401

  /** "Bearer " cannot overlap itself: no proper suffix of it starts with 'B'. */
  lemma BearerPrefixIsSelfAvoiding()
    ensures |BearerPrefix| > 0 && Split.NoSelfOverlap(BearerPrefix)
  {
    forall k | 0 < k < |BearerPrefix|
      ensures BearerPrefix[k..] != BearerPrefix[..|BearerPrefix| - k]
    {
      assert BearerPrefix[k..][0] != 'B';
    }
  }

  /**
   * `strings.Split(header, "Bearer ")` must give exactly two parts; the token is the
   * second. So the header is accepted iff "Bearer " occurs in it exactly once, the
   * token is everything after that occurrence, and whatever precedes it is ignored.
   */
  function BearerToken(header: string): (t: Option<string>)
    ensures t.Some? <==> exists i :: Split.OccursOnlyAt(header, BearerPrefix, i)
    ensures forall i :: (Split.OccursOnlyAt(header, BearerPrefix, i)
                         ==> t == Some(header[i + |BearerPrefix|..]))
  {
    BearerPrefixIsSelfAvoiding();
    Split.SplitInTwo(header, BearerPrefix);
    var parts := Split.Split(header, BearerPrefix);
    if |parts| == 2 then Some(parts[1]) else None
  }

  /** Any text free of "Bearer " may precede the prefix; the token is what follows it. */
  lemma BearerTokenAfterAnyPrefix(before: string, token: string)
    requires Split.NoOccurrence(before, BearerPrefix) && Split.NoOccurrence(token, BearerPrefix)
    ensures BearerToken(before + BearerPrefix + token) == Some(token)
  {
    BearerPrefixIsSelfAvoiding();
    Split.OnlyOccurrenceBetween(before, BearerPrefix, token);
    assert (before + BearerPrefix + token)[|before| + |BearerPrefix|..] == token;
  }

  /** An empty header carries no token, so its explicit check only chooses the message. */
  lemma EmptyHeaderHasNoToken()
    ensures BearerToken("") == None
  {
    assert !Split.OccursAt("", BearerPrefix, 0);
  }

  /** A header naming "Bearer " at two places is refused. */
  lemma TwoBearersRejected(header: string, i: int, j: int)
    requires Split.OccursAt(header, BearerPrefix, i) && Split.OccursAt(header, BearerPrefix, j) && i != j
    ensures BearerToken(header) == None
  {
    forall k | 0 <= k <= |header|
      ensures !Split.OccursOnlyAt(header, BearerPrefix, k)
    {
      if k == i {
        assert Split.OccursAt(header, BearerPrefix, j) && j <= |header|;
      } else {
        assert Split.OccursAt(header, BearerPrefix, i) && i <= |header|;
      }
    }
  }

  lemma DoubleBearerExample()
    ensures BearerToken("Bearer a Bearer b") == None
  {
    var h := "Bearer a Bearer b";
    assert h[0..7] == BearerPrefix;
    assert h[9..16] == BearerPrefix;
    TwoBearersRejected(h, 0, 9);
  }

  /** What a middleware does with a request: refuse it, or call the next handler once with a context. */
  datatype Outcome = Rejected(status: int, message: string) | Next(ctx: Context)

  /** `AuthMiddleware`: every failure is a 401; success stores the validated id's text under `UserIDKey`. */
  function Auth(header: string, ctx: Context, validate: string -> Option<Uuid>): (o: Outcome)
    ensures header == "" ==> o == Rejected(StatusUnauthorized, "missing auth header")
    ensures header != "" && BearerToken(header).None? ==> o == Rejected(StatusUnauthorized, "invalid auth header")
    ensures BearerToken(header).Some? && validate(BearerToken(header).value).None?
            ==> o == Rejected(StatusUnauthorized, "invalid or expired token")
    ensures o.Next? <==> BearerToken(header).Some? && validate(BearerToken(header).value).Some?
    ensures o.Next? ==> o.ctx == ctx[UserIDKey := Str(validate(BearerToken(header).value).value.text)]
  {
    if header == "" then
      EmptyHeaderHasNoToken();
      Rejected(StatusUnauthorized, "missing auth header")
    else match BearerToken(header)
      case None => Rejected(StatusUnauthorized, "invalid auth header")
      case Some(token) =>
        match validate(token)
        case None => Rejected(StatusUnauthorized, "invalid or expired token")
        case Some(id) => Next(ctx[UserIDKey := Str(id.text)])
  }

  /** `OptionalAuthMiddleware`: the next handler always runs; the context gains the id only for a valid token. */
  function OptionalAuth(header: string, ctx: Context, validate: string -> Option<Uuid>): (o: Outcome)
    ensures o.Next?
    ensures BearerToken(header).Some? && validate(BearerToken(header).value).Some?
            ==> o.ctx == ctx[UserIDKey := Str(validate(BearerToken(header).value).value.text)]
    ensures BearerToken(header).None? || validate(BearerToken(header).value).None? ==> o.ctx == ctx
  {
    if header == "" then
      EmptyHeaderHasNoToken();
      Next(ctx)
    else match BearerToken(header)
      case None => Next(ctx)
      case Some(token) =>
        match validate(token)
        case None => Next(ctx)
        case Some(id) => Next(ctx[UserIDKey := Str(id.text)])
  }

  /** The optional middleware passes exactly what the strict one passes, and the untouched request otherwise. */
  lemma OptionalIsLenientAuth(header: string, ctx: Context, validate: string -> Option<Uuid>)
    ensures OptionalAuth(header, ctx, validate)
            == if Auth(header, ctx, validate).Next? then Auth(header, ctx, validate) else Next(ctx)
  {
  }

  /**
   * End to end: when the strict middleware lets a request through and `parse` reads
   * back the id the validator returned from its text, the `NewAd` gate passes with
   * exactly that id, and a listing behind the optional middleware sees the same requester.
   */
  lemma AuthFeedsHandlers(header: string, ctx: Context, validate: string -> Option<Uuid>,
                          parse: string -> Option<Uuid>, ad: Ad)
    requires Auth(header, ctx, validate).Next?
    requires parse(validate(BearerToken(header).value).value.text) == Some(validate(BearerToken(header).value).value)
    ensures var id := validate(BearerToken(header).value).value;
      && NewAdGate(Some(ad), Auth(header, ctx, validate).ctx, parse) == Success((ad, id))
      && RequesterId(OptionalAuth(header, ctx, validate).ctx, parse) == id
  {
  }

  /** Without a usable token the strict middleware never reaches the handler. */
  lemma BadHeaderNeverReachesNewAd(header: string, ctx: Context, validate: string -> Option<Uuid>)
    requires BearerToken(header).None?
    ensures Auth(header, ctx, validate).Rejected? && Auth(header, ctx, validate).status == StatusUnauthorized
  {
  }
}
