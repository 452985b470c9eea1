/**
 * The records the services exchange: users, ads, listing parameters and
 * responses, token pairs, and the error kinds the services report.
 */
module Model {

  /** A UUID, held as the canonical text `uuid.UUID.String()` produces. */
  datatype Uuid = Uuid(text: string)

  /** `uuid.Nil`, the all-zero UUID, which is also Go's zero value for the type. */
  const NilUuid: Uuid := Uuid("00000000-0000-0000-0000-000000000000")

  /** A stored account; `password` holds the password hash. */
  datatype User = User(uuid: Uuid, login: string, password: string)

  /** Go's `User{}`, returned beside every error. */
  const ZeroUser: User := User(NilUuid, "", "")

  /** Instants are integers; 0 stands for Go's zero `time.Time`. */
  const ZeroTime: int := 0

  /** A listing. `id` is the database row id, `username` the author's login copied at creation. */
  datatype Ad = Ad(
    id: int,
    uuid: Uuid,
    title: string,
    description: string,
    imageUrl: string,
    userId: Uuid,
    username: string,
    price: int,
    createdAt: int)

  /** Listing query, after the handler has normalised it. */
  datatype ListParams = ListParams(
    page: int,
    limit: int,
    sortBy: string,
    order: string,
    minPrice: int,
    maxPrice: int)

  /** One row of a listing, annotated for the requester. */
  datatype AdsListResponse = AdsListResponse(
    title: string,
    description: string,
    imageUrl: string,
    price: int,
    owner: bool,
    username: string)

  /** The token pair handed out on login and on refresh. */
  datatype JwtResponse = JwtResponse(tokenType: string, accessToken: string, refreshToken: string)

  /** Every failure the modelled code can report, one constructor per distinct message. */
  datatype Error =
    // user store
    | NotFound
    | DuplicateLogin
    // registration and login
    | UserAlreadyExists
    | EmptyCredentials
    | InvalidLoginLength
    | InvalidLoginCharacters
    | InvalidPasswordLength
    | WeakPassword
    | HashFailed
    | SaveUserFailed(cause: Error)
    | UserNotFound
    | Unauthorized
    | TokenGenerationFailed
    | InvalidRefreshToken
    // ads
    | MissingFieldsOrLowPrice
    | InvalidTitleLength
    | InvalidDescriptionLength
    | ImageTypeNotAllowed(ext: string)
    | AuthorLookupFailed(cause: Error)
    | ListFailed(cause: Error)
    | ListIsEmpty
    // database
    | DatabaseError
    | UsernameLookupFailed(cause: Error)
}
