# Marketplace backend: a Dafny model of its decision logic

This project models the rules of a small Go marketplace backend (`iapparov/Marketplace`):

- **Accounts.** Registration checks a fixed sequence of rules: existing login, empty
  credentials, login policy, password policy, hashing, save. Login checks the password
  hash and issues a token pair. Refresh validates a refresh token and reissues the pair.
- **Ads.** Ad creation validates fields in a fixed order, including an image-extension
  allow-list taken on the lower-cased URL the way `filepath.Ext` does. It then stamps the
  author, the clock and a fresh id, and saves the ad. The listing service maps an empty
  result to its own error.
- **Listing handler.** It normalises the query strings with `strconv.Atoi` semantics and
  defaults; a query is never rejected. It reads the requester id from the request context.
- **Ad store.** The listing query means: join on existing authors, keep the price range,
  order by price or date in either direction, skip and limit (SQLite LIMIT/OFFSET), then
  mark ownership and fill in usernames through a user lookup that may fail.
- **Authorization middlewares.** They apply `strings.Split(header, "Bearer ")`. The strict
  middleware rejects with 401; the optional one always passes the request on.
- **Configuration.** The image allow-map is built from the configured types: each gets a
  dot if it lacks one and is lower-cased.
- **Test doubles.** The map-backed user store and the slice-backed ad store.

The libraries the code calls become parameters:

- token signing and validation: `User -> Option<string>` and `string -> Option<Uuid>`;
- bcrypt: a hash result `Option<string>` and a comparison `(hash, password) -> bool`;
- `time.Now` and `uuid.New`: values passed in;
- `uuid.Parse`: `string -> Option<Uuid>`;
- the user lookup used by the ad store: `string -> Result<User, Error>`.

Strings are rune sequences. Case mapping is ASCII only. Go's 64-bit `int` is an unbounded
`int`. The 64-bit range is stated where parsing depends on it (`Atoi`). The one product
that can overflow, the listing offset, is modelled both ways: wrapped as written
(`OffsetAsWritten`, `RowsAsWritten`) and unbounded as intended (`Offset`, `Rows`, used by
`GetAdsList`); see "Findings".

Layout:

- `wrappers.dfy`: `Option` and `Result`.
- `text.dfy`: ASCII classes and lower-casing.
- `model.dfy`: the records and error kinds.
- `strconv.dfy`: `Atoi`/`Itoa`.
- `path_ext.dfy`: `filepath.Ext`.
- `split.dfy`: `strings.Split`.
- `config.dfy`: the policies and the allow-map.
- `user_repo.dfy` and `market_repo.dfy`: the test doubles.
- `user_service.dfy` and `market_service.dfy`: the services.
- `ad_order.dfy` and `market_db.dfy`: listing order and the SQL store.
- `market_handler.dfy` and `middleware.dfy`: the web layer.
- `listing.dfy`: the listing path end to end.

## Model

| member | source | states |
|---|---|---|
| Text.ToLower | internal/config/config_service.go:27 | Lower-casing keeps the length and maps every rune on its own, so only ASCII capitals change |
| PathExt.Ext | internal/app/market_service.go:36 | The extension is a suffix of the path. It is either empty, or one dot followed by no further dot and no separator. It is empty only when every dot in the path has a separator somewhere after it |
| PathExt.ExtUnique | internal/app/market_service.go:36 | Those three properties determine the extension: any string that meets them is `Ext(path)` |
| PathExt.ExtOfLower | internal/app/market_service.go:36 | The extension of the lower-cased URL is the lower-cased extension of the URL |
| PathExt.ExtOfImageNames | internal/app/market_service_test.go:128 | "image.jpg" gives ".jpg", "image.zip" gives ".zip", and "a.tar.gz" gives ".gz": only the last dot counts |
| PathExt.ExtOfDottedDirectory | internal/app/market_service.go:36 | A dot in a directory name is not an extension: "d.d/file" has none |
| Split.IndexFrom | internal/web/midlware.go:21 | The result is the first occurrence of the separator at or after the start position, or none when there is none |
| Split.JoinSplit | internal/web/midlware.go:21 | Joining the parts of a split with the separator gives back the header: splitting loses no text |
| Split.SplitInTwo | internal/web/midlware.go:21-22 | For a separator that cannot overlap itself, there are exactly two parts iff the separator occurs exactly once. The parts are then the text before and after that occurrence |
| Split.OnlyOccurrenceBetween | internal/web/midlware.go:21-26 | Text free of the separator, then the separator, then text free of it: the separator occurs there exactly once |
| StrConv.Atoi | internal/web/market_handler.go:67 | A result exists iff the text is an optional sign followed by one or more ASCII digits and the value it denotes (the digits' value, negated after '-') is in the 64-bit range. The result is that value. Every such text with at most 18 digits parses |
| StrConv.AtoiIgnoresPlusAndZeros | internal/web/market_handler.go:67 | A '+' sign, or a leading zero after the sign, does not change the parse, range errors included |
| StrConv.AtoiItoa | internal/web/market_handler.go:67-92 | Formatting any 64-bit integer in decimal and parsing it back returns the integer |
| StrConv.AtoiRejects | internal/web/market_handler.go:67 | The empty string, a lone sign, letters, digit separators and leading spaces do not parse |
| StrConv.AtoiAccepts | internal/web/market_handler.go:67 | An explicit '+' sign, a '-' sign and leading zeros are accepted |
| Config.NormalizeImgType | internal/config/config_service.go:24-27 | A normalised image type starts with '.' and has no upper-case letter. It is one longer than the type when the type lacks a leading dot, and as long otherwise. It ends with the lower-cased type |
| Config.NormalizedIsFixed | internal/config/config_service.go:24-27 | A dotted type without capitals is its own normal form |
| Config.NormalizeUndotted | internal/config/config_service.go:24-27 | A type without a leading dot and without capitals only gains the dot |
| Config.BuildImgTypesMap | internal/config/config_service.go:22-28 | The map's keys are exactly the normalised configured types, and each maps to true |
| Config.LoadImgTypes | internal/config/config_service.go:22-28 | Loading replaces only the allow-map. A key looks up true iff it is a normalised configured type, and anything else reads false |
| Config.NormalizeImgTypeIdempotent | internal/config/config_service.go:24-27 | Normalising twice is normalising once |
| Config.NormalizeImgTypeExamples | internal/config/config_service.go:24-27 | "jpg", ".jpg" and ".JPG" all become ".jpg" |
| Config.ImgTypesMapIgnoresOrder | internal/config/config_service.go:22-28 | Two type lists with the same members, in any order and with any duplicates, give the same map |
| Config.ImgTypesMapExample | internal/config/config_service_test.go:39-74 | From the configured types ["jpg", "png"], ".jpg" and ".png" are allowed and ".gif" is not |
| UserRepoMock.SaveNewUser | internal/app/mock_user_model.go:10-16 | Saving fails iff the login is already a key, and then nothing changes. On success the login maps to the user, the key set grows by that login only, and every earlier entry is kept |
| UserRepoMock.FindByLogin | internal/app/mock_user_model.go:17-23 | The lookup succeeds iff the exact login is a key, and then returns its user; otherwise it fails with "not found" |
| UserRepoMock.FindByUUID | internal/app/mock_user_model.go:24-31 | The lookup succeeds iff some stored user has that UUID text, and then returns one such stored user; otherwise it fails with "not found" |
| UserRepoMock.FindAfterSave | internal/app/mock_user_model.go:10-23 | After a successful save, looking up the saved login returns the saved user |
| UserRepoMock.UuidsAfterSave | internal/app/mock_user_model.go:10-31 | After a save, a UUID is found iff it was found before or it is the new user's |
| MarketRepoMock.SaveAd | internal/app/mock_market_model.go:9-12 | Saving never fails and returns its argument. The ad is appended once at the end, and the earlier ads and canned responses are unchanged |
| MarketRepoMock.GetAdsList | internal/app/mock_market_model.go:13-15 | Listing ignores its arguments, never fails, and returns the canned responses |
| UserService.IsValidLogin | internal/app/user_service.go:63-74 | A login passes iff its rune count is within the bounds and it is non-empty with every rune in the allowed class. The length failure is reported first |
| UserService.Scan | internal/app/user_service.go:83-97 | The scan finds an upper-case, lower-case, digit or space rune iff the password contains one |
| UserService.IsValidPassword | internal/app/user_service.go:76-103 | A password passes iff its length is within bounds, every required ASCII class occurs, and it has no space, whatever the policy. The length failure is reported first |
| UserService.StoredLogin | internal/app/user_service.go:46-48 | The stored login has the login's length. It is the login itself when `CaseSensitive` is off, and has no capital when it is on; non-capitals are never changed |
| UserService.RegisterUser | internal/app/user_service.go:22-61 | Checks run in order (existing login, empty fields, login, password, hashing, save) and the first failure is reported. Every failure returns the zero user and an unchanged store. Success holds iff all checks pass; the user saved and returned has the fresh id, the stored login (lower-cased iff `CaseSensitive`) and the hash |
| UserService.IssuePair | internal/app/user_service.go:115-129 | A "Bearer" pair is returned iff both tokens can be signed; otherwise token generation fails |
| UserService.LoginJwt | internal/app/user_service.go:105-130 | An unknown login gives "user not found". A hash mismatch gives "unauthorized". Otherwise the result is the token pair of the stored user |
| UserService.RefreshAccessToken | internal/app/user_service.go:132-156 | An invalid token gives "invalid refresh token". An unknown subject gives "user not found". For a known subject the result is the token-pair outcome of a stored user with the token's UUID: the pair, or "failed to generate" when a token cannot be signed |
| UserService.OnlyRegisteredUserHasUuid | internal/app/user_service.go:22-61 | After a registration under a UUID no stored user had, the new user is the only one carrying it |
| UserService.RegisterThenRefresh | internal/app/user_service.go:22-156 | A refresh token naming a user just registered under a fresh UUID yields the token pair of exactly that user, given both tokens can be signed |
| UserService.RegisterTwiceFails | internal/app/user_service.go:22-27 | Registering the same request again after a success fails |
| UserService.RegisterThenLogin | internal/app/user_service.go:22-130 | With `CaseSensitive` off, a registered user can log in with the same credentials, given that the hash verifies and both tokens can be signed |
| UserService.CaseSensitiveLoginIsLowered | internal/app/user_service.go:46-48 | With `CaseSensitive` on, a login with a capital is stored lower-cased, so logging in with the registered spelling finds no user |
| UserService.PasswordExamples | internal/app/user_service_test.go:47-51 | "Password1" passes. "Pass word" and "password1" are weak. "Pass1" has the wrong length |
| MarketService.ValidateAd | internal/app/market_service.go:24-40 | An ad passes iff all four rules hold. The error reported is the first broken rule in the order fields/price, title, description, image, and the image error names the extension |
| MarketService.NewAd | internal/app/market_service.go:22-51 | A validation error is returned before any store is read. An unknown author is an error and nothing is saved. On success the caller's fields are kept, the author id, clock and fresh id are set, the username is the author's login, and exactly that ad is appended |
| MarketService.AdsList | internal/app/market_service.go:53-64 | A store error is wrapped. An empty list is "list is empty". Any other list is returned unchanged |
| MarketService.AdsListOverMock | internal/app/market_service.go:53-64 | Over the in-memory store, the listing is the canned rows, or the empty-list error when there are none |
| MarketService.ImageCheckIgnoresCase | internal/app/market_service.go:36-38 | The image check looks up the lower-cased extension of the URL as given |
| MarketService.ShortTitleRejected | internal/app/market_service_test.go:88-95 | A two-rune title is refused with the title-length error |
| MarketService.ZipImageRejected | internal/app/market_service_test.go:124-131 | "image.zip" is refused, and the error names ".zip" |
| MarketService.UpperCaseJpgAccepted | internal/app/market_service.go:36-40 | "photo.JPG" passes when ".jpg" is allowed |
| AdOrder.Insert | internal/datasource/market_db.go:53-61 | Inserting into a sorted list keeps it sorted, adds the element once, and keeps the other elements |
| AdOrder.Sort | internal/datasource/market_db.go:53-61 | The result is ordered by price iff sorting by "price" (else by creation time), descending iff the order is "desc". It is a permutation of the input |
| MarketDb.SaveAd | internal/datasource/market_db.go:19-33 | On success the ad is returned unchanged and one row is appended. On a failed insert the table is untouched |
| MarketDb.Filter | internal/datasource/market_db.go:48-50 | The result keeps exactly the rows whose author exists and whose price lies in the inclusive range, with their multiplicities |
| MarketDb.Window | internal/datasource/market_db.go:63-66 | LIMIT/OFFSET returns the contiguous run starting at the offset (0 if negative), of the limit's length or up to the end, and nothing past the end |
| MarketDb.Offset | internal/datasource/market_db.go:63 | The offset of a page ≥ 1 is not negative, page 1 skips nothing, and each page ends where the next begins |
| MarketDb.Rows | internal/datasource/market_db.go:48-66 | Every returned row is selected. The rows are in the requested order and are drawn from the table |
| MarketDb.Annotate | internal/datasource/market_db.go:72-102 | The result holds one response per row in row order iff every author lookup succeeds. Ownership compares UUID texts and the username is the author's login. Otherwise the error is the failure of some row's lookup, with no partial list |
| MarketDb.GetAdsList | internal/datasource/market_db.go:35-103 | The listing succeeds iff every row's author lookup succeeds; otherwise the error is some row's lookup failure. A success has one response per row of the query, in order: the row's title, description, image and price, `owner` iff the row's author is the requester, and the author's login. Every price is in range |
| MarketDb.RowsCount | internal/datasource/market_db.go:63-66 | For page ≥ 1 and limit ≥ 1 a page holds `limit` rows, fewer on the last page, and none past it |
| MarketDb.RowsArePage | internal/datasource/market_db.go:53-66 | The rows are a contiguous run of some key-ordered arrangement of the matching ads, starting after (page − 1) × limit of them |
| MarketDb.SecondPageOfTen | internal/datasource/market_db.go:63-66 | With 25 matching ads, page 2 of size 10 is the 11th to the 20th |
| MarketDb.AnonymousOwnsNothing | internal/datasource/market_db.go:88-90 | The nil requester owns no row when no ad is authored by the nil UUID |
| MarketDb.ListingSucceedsWhenAuthorsResolve | internal/datasource/market_db.go:49-97 | When every author in the user table can be looked up, listing never fails |
| MarketDb.WrapInt | internal/datasource/market_db.go:63 | Two's-complement wrap-around lands in the 64-bit range, differs from its input by a multiple of 2^64, and leaves in-range values alone |
| MarketDb.OffsetAsWritten | internal/datasource/market_db.go:63 | The offset computed in 64 bits is in range, congruent to the intended offset modulo 2^64, and equal to it wherever that fits |
| MarketDb.RowsAsWritten | internal/datasource/market_db.go:48-66 | With the wrapped offset the rows are still selected, ordered and drawn from the table, and they are the intended page wherever the offset fits in 64 bits |
| MarketDb.OffsetOverflowRepeatsFirstPage | internal/datasource/market_db.go:63-66 | Page 2^62 + 1 with limit 4 should be empty, but the written offset wraps to 0 and returns the first page |
| MarketHandler.AtLeastOr | internal/web/market_handler.go:67-74 | A numeric field keeps its parsed value iff that value parses and reaches the floor; otherwise it takes the default. The result is in range and reaches the floor |
| MarketHandler.OneOf | internal/web/market_handler.go:75-82 | A text field ends up as one of its two allowed values. An allowed value is kept, and any other value becomes the default |
| MarketHandler.NormalizeQuery | internal/web/market_handler.go:62-92 | Every query normalises, with no error path, and the result satisfies `Normalized`: page ≥ 1, limit ≥ 1, a known sort key and order, prices in range, max price ≥ 0. Each acceptable value is kept, and each other value becomes its default: 1, 10, "date", "asc", 0 and 1000000. A parsed negative min price is kept |
| MarketHandler.NormalizeRender | internal/web/market_handler.go:67-92 | Normalised parameters are fixed points: rendering them as a query and normalising again gives them back |
| MarketHandler.NormalizeIdempotent | internal/web/market_handler.go:67-92 | Normalising the rendering of a normalised query changes nothing |
| MarketHandler.EmptyQueryDefaults | internal/web/market_handler.go:67-92 | A query with no parameters gets all the defaults |
| MarketHandler.NormalizeExamples | internal/web/market_handler.go:67-92 | Page "0" becomes 1 and limit "-3" becomes 10. An unknown sort key and an upper-case "DESC" fall back. Min price "-12" is kept while max price "-12" becomes 1000000 |
| MarketHandler.UserIdText | internal/web/market_handler.go:94-95 | A text is read iff the context holds a string under `user_id`, and it is that string |
| MarketHandler.RequesterId | internal/web/market_handler.go:94-104 | The requester is the nil UUID when the context value is absent, not a string, or unparseable. When the stored string parses, the requester is its parse |
| MarketHandler.NewAdGate | internal/web/market_handler.go:31-48 | A body that does not decode, then a missing or non-string user id, then an unparseable one, each give 400 with their own message. The request passes iff all three checks pass, carrying the decoded ad and the parsed id |
| MarketHandler.GateAgreesWithRequester | internal/web/market_handler.go:37-104 | The ad gate and the listing read the context alike. A passing gate carries the listing's requester, and a non-nil requester always passes the gate |
| Middleware.BearerPrefixIsSelfAvoiding | internal/web/midlware.go:21 | "Bearer " cannot overlap itself |
| Split.Split | internal/web/midlware.go:21 | There is at least one part. There is exactly one iff the separator does not occur, and no part contains the separator |
| Middleware.BearerToken | internal/web/midlware.go:21-26 | A header yields a token iff "Bearer " occurs in it exactly once; the token is the text after that occurrence |
| Middleware.BearerTokenAfterAnyPrefix | internal/web/midlware.go:21-26 | Text before the prefix is ignored: for text free of "Bearer " before and after it, the token is what follows |
| Middleware.EmptyHeaderHasNoToken | internal/web/midlware.go:16-25 | The empty header yields no token, so its explicit check only chooses the message |
| Middleware.TwoBearersRejected | internal/web/midlware.go:21-25 | A header with "Bearer " at two places yields no token |
| Middleware.DoubleBearerExample | internal/web/midlware.go:21-25 | "Bearer a Bearer b" is refused |
| Middleware.Auth | internal/web/midlware.go:13-38 | An empty header, a malformed header or an invalid token each give 401 with their own message, and `next` is not called. Otherwise `next` runs once with the validated UUID text under `user_id` |
| Middleware.OptionalAuth | internal/web/midlware.go:40-65 | `next` always runs once. For a well-formed header with a valid token the context gains the validated UUID text under `user_id`; otherwise it is passed unchanged |
| Middleware.OptionalIsLenientAuth | internal/web/midlware.go:13-65 | The optional middleware passes what the strict one passes, and the untouched request where the strict one rejects |
| Middleware.AuthFeedsHandlers | internal/web/midlware.go:34-35 | After the strict middleware passes, and given that `uuid.Parse` reads the validated id back from its text, the ad gate passes with exactly that id and the listing behind the optional middleware sees the same requester |
| Middleware.BadHeaderNeverReachesNewAd | internal/web/midlware.go:16-26 | A header without exactly one "Bearer " is refused with 401 |
| Listing.NormalizedQueryHasPage | internal/web/market_handler.go:67-74 | Every normalised query has a page and limit of at least 1, so the page-size law of the store applies to it |
| Listing.HugePageReachesTheStore | internal/web/market_handler.go:67-70 | Page 4611686018427387905 survives normalisation, so the offset overflow of the store is reachable from a request |

## Left out

- JWT signing and validation (HS256). Tokens come from issuer and validator parameters. The access and refresh secrets share a default, so nothing keeps the two kinds of token apart; the model does not try to.
- bcrypt. The hash is a parameter (`None` when hashing fails) and the comparison is an oracle. `RegisterThenLogin` assumes the comparison accepts the hash of the same password.
- `time.Now` and `uuid.New` are parameters. `uuid.Parse` is an oracle, and a UUID is its canonical text.
- SQL plumbing: prepare, query and scan errors other than a failed insert (`execFails`). The SQL user store lower-cases logins in `internal/datasource/user_db.go`; that file is not part of this model, and the services run against the map-backed store the tests use.
- The order of equal sort keys. The store's contract states only that rows are sorted and form a permutation of the matching ads; the page lemma quantifies over every sorted arrangement.
- HTTP plumbing: JSON encoding and decoding (a decoding failure is the `None` body of `NewAdGate`), headers and status writing. The `NewAd` handler has no `return` after a service error (internal/web/market_handler.go:52-54), so it writes a second reply; that is not modelled.
- Wiring and loading: router, main, dependency injection, YAML reading, and `MustLoad`. `LoadConfig` only unmarshals YAML, so the `env-default` tags are never applied; the model takes the policies as given.
- The allowed-login characters are a rune class (ranges) rather than a compiled regular expression built from the configured string.
- Unicode: strings are rune sequences, so the UTF-8 validity check in `isValidPassword` cannot fail. Case mapping is ASCII only.
- Floating point: prices are integers and the price floor is an exact real.
- Revision mismatches in the source:
  - the service sets `Ad.UUID`, which the ad record of internal/app/market_model.go lacks; the model gives the ad that field;
  - `ValidateRefreshToken` returns a UUID where a claims map is indexed, and so does `ValidateAccessToken` in the middlewares; the model uses the validated UUID;
  - the market interface and the store differ in the listing signature; the model follows the store.
- Split.Split: an empty separator is not modelled; the only caller splits on "Bearer ".
- MarketRepoMock.SaveAd and MarketRepoMock.GetAdsList take pointer receivers in Go; the model returns the new store state instead.
- MarketDb.Rows: skips (page − 1) × limit rows computed without 64-bit wrap-around, the intended behaviour; the wrapped offset the code computes is `RowsAsWritten` (see "Findings").
- MarketDb.GetAdsList: lists `Rows`, so it inherits the unwrapped offset; where the offset fits in 64 bits the two agree (`RowsAsWritten`).
- MarketService.NewAd: the success case states the author is some stored user with the caller's UUID. Which one the mock's map iteration picks when several share it is left open.

## Findings

| source | as written | input that shows it | evidently intended | confidence | as-written member | corrected member |
|---|---|---|---|---|---|---|
| internal/datasource/market_db.go:63 | `offset := (params.Page - 1) * params.Limit` in 64-bit `int`. The handler accepts any page up to 2^63 − 1 | page=4611686018427387905 (2^62 + 1), limit=4: the product 2^64 wraps to offset 0 | A page past the end returns no rows | not executed | MarketDb.OffsetOverflowRepeatsFirstPage | MarketDb.RowsArePage |
