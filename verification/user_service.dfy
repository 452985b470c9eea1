/**
 * Account rules: login and password policy checks, registration, password login
 * and refresh-token exchange. Hashing, token signing and token checking are
 * oracles passed in by the caller.
 */
module UserService {
  import opened Wrappers
  import opened Text
  import opened Model
  import opened Config
  import opened UserRepoMock

  datatype SignUpRequest = SignUpRequest(login: string, password: string)
  datatype JwtRequest = JwtRequest(login: string, password: string)
  datatype RefreshJwtRequest = RefreshJwtRequest(refreshToken: string)

  /**
   * The token signers: each gives the signed token for a user, or `None` when
   * signing fails. Expiry and secrets are inside the oracle.
   */
  datatype TokenIssuer = TokenIssuer(access: User -> Option<string>, refresh: User -> Option<string>)

  /** What `RegisterUser` hands back: Go's `(User, error)` pair, plus the store afterwards. */
  datatype Registration = Registration(user: User, err: Option<Error>, repo: MockUserRepo)

  predicate HasUpper(s: string) { exists i :: 0 <= i < |s| && IsUpperAscii(s[i]) }
  predicate HasLower(s: string) { exists i :: 0 <= i < |s| && IsLowerAscii(s[i]) }
  predicate HasDigit(s: string) { exists i :: 0 <= i < |s| && IsDigitAscii(s[i]) }

  /** `isValidLogin`: the length check comes first, then "one or more characters, all from the class". */
  function IsValidLogin(login: string, policy: UsernamePolicy): (r: Option<Error>)
    ensures r.None? <==> LengthWithin(login, policy.minLength, policy.maxLength) && |login| > 0
                         && forall i :: 0 <= i < |login| ==> policy.allowedCharacters.Contains(login[i])
    ensures r == Some(InvalidLoginLength) <==> !LengthWithin(login, policy.minLength, policy.maxLength)
    ensures r.Some? ==> r.value == InvalidLoginLength || r.value == InvalidLoginCharacters
  {
    if !LengthWithin(login, policy.minLength, policy.maxLength) then Some(InvalidLoginLength)
    else if |login| > 0 && forall i :: 0 <= i < |login| ==> policy.allowedCharacters.Contains(login[i]) then None
    else Some(InvalidLoginCharacters)
  }

  /** What one pass over a password finds. */
  datatype CharScan = CharScan(upper: bool, lower: bool, digit: bool, space: bool)

  /** The classifying loop of `isValidPassword`, one rune at a time. */
  function Scan(s: string): (f: CharScan)
    ensures f.upper <==> HasUpper(s)
    ensures f.lower <==> HasLower(s)
    ensures f.digit <==> HasDigit(s)
    ensures f.space <==> ' ' in s
    decreases |s|
  {
    if |s| == 0 then CharScan(false, false, false, false)
    else
      var init, c := s[..|s| - 1], s[|s| - 1];
      assert s == init + [c];
      var f := Scan(init);
      if IsUpperAscii(c) then f.(upper := true)
      else if IsLowerAscii(c) then f.(lower := true)
      else if IsDigitAscii(c) then f.(digit := true)
      else if c == ' ' then f.(space := true)
      else f
  }

  /**
   * `isValidPassword`: the length check first, then every required class present
   * and no space at all, whatever the policy says.
   */
  function IsValidPassword(password: string, policy: PasswordPolicy): (r: Option<Error>)
    ensures r.None? <==> LengthWithin(password, policy.minLength, policy.maxLength)
                         && (policy.requireUpper ==> HasUpper(password))
                         && (policy.requireLower ==> HasLower(password))
                         && (policy.requireDigit ==> HasDigit(password))
                         && ' ' !in password
    ensures r == Some(InvalidPasswordLength) <==> !LengthWithin(password, policy.minLength, policy.maxLength)
    ensures r.Some? ==> r.value == InvalidPasswordLength || r.value == WeakPassword
  {
    if !LengthWithin(password, policy.minLength, policy.maxLength) then Some(InvalidPasswordLength)
    else
      var f := Scan(password);
      var hasUpper := !policy.requireUpper || f.upper;
      var hasLower := !policy.requireLower || f.lower;
      var hasDigit := !policy.requireDigit || f.digit;
      if !hasUpper || !hasLower || !hasDigit || f.space then Some(WeakPassword) else None
  }

  /** The login a successful registration stores: lowered exactly when `caseSensitive` is set. */
  function StoredLogin(login: string, policy: UsernamePolicy): (stored: string)
    ensures |stored| == |login|
    ensures !policy.caseSensitive ==> stored == login
    ensures policy.caseSensitive ==> forall i :: 0 <= i < |stored| ==> !IsUpperAscii(stored[i])
    ensures forall i :: 0 <= i < |login| && !IsUpperAscii(login[i]) ==> stored[i] == login[i]
  {
    if policy.caseSensitive then ToLower(login) else login
  }

  /** All checks of `RegisterUser` before hashing pass. */
  predicate Acceptable(repo: MockUserRepo, req: SignUpRequest, cfg: Config) {
    && req.login !in repo.users
    && req.login != "" && req.password != ""
    && IsValidLogin(req.login, cfg.username).None?
    && IsValidPassword(req.password, cfg.password).None?
  }

  /**
   * `RegisterUser`. `freshId` is what `uuid.New` returned and `hashed` what bcrypt
   * returned (`None` when hashing failed).
   */
  function RegisterUser(repo: MockUserRepo, req: SignUpRequest, cfg: Config, freshId: Uuid, hashed: Option<string>): (r: Registration)
    // checks in order, the first failing one reported
    ensures r.err == Some(UserAlreadyExists) <==> req.login in repo.users
    ensures r.err == Some(EmptyCredentials) <==> req.login !in repo.users && (req.login == "" || req.password == "")
    ensures req.login !in repo.users && req.login != "" && req.password != "" && IsValidLogin(req.login, cfg.username).Some?
            ==> r.err == IsValidLogin(req.login, cfg.username)
    ensures req.login !in repo.users && req.login != "" && req.password != "" && IsValidLogin(req.login, cfg.username).None?
            && IsValidPassword(req.password, cfg.password).Some?
            ==> r.err == IsValidPassword(req.password, cfg.password)
    ensures Acceptable(repo, req, cfg) && hashed.None? ==> r.err == Some(HashFailed)
    ensures Acceptable(repo, req, cfg) && hashed.Some? && StoredLogin(req.login, cfg.username) in repo.users
            ==> r.err == Some(SaveUserFailed(DuplicateLogin))
    // every failure returns the zero user and leaves the store as it was
    ensures r.err.Some? ==> r.user == ZeroUser && r.repo == repo
    // success: the stored user is the returned one, and nothing else changed
    ensures r.err.None? <==> Acceptable(repo, req, cfg) && hashed.Some? && StoredLogin(req.login, cfg.username) !in repo.users
    ensures r.err.None? ==> r.user == User(freshId, StoredLogin(req.login, cfg.username), hashed.value)
    ensures r.err.None? ==> r.repo.users == repo.users[r.user.login := r.user]
  {
    if FindByLogin(repo, req.login).Success? then Registration(ZeroUser, Some(UserAlreadyExists), repo)
    else if req.login == "" || req.password == "" then Registration(ZeroUser, Some(EmptyCredentials), repo)
    else if IsValidLogin(req.login, cfg.username).Some? then Registration(ZeroUser, IsValidLogin(req.login, cfg.username), repo)
    else if IsValidPassword(req.password, cfg.password).Some? then Registration(ZeroUser, IsValidPassword(req.password, cfg.password), repo)
    else if hashed.None? then Registration(ZeroUser, Some(HashFailed), repo)
    else
      var user := User(freshId, StoredLogin(req.login, cfg.username), hashed.value);
      match SaveNewUser(repo, user)
      case Failure(e) => Registration(ZeroUser, Some(SaveUserFailed(e)), repo)
      case Success(saved) => Registration(user, None, saved)
  }

  /** The pair both token endpoints return once the user is known. */
  function IssuePair(user: User, issuer: TokenIssuer): (r: Result<JwtResponse, Error>)
    ensures r.Success? <==> issuer.access(user).Some? && issuer.refresh(user).Some?
    ensures r.Success? ==> r.value == JwtResponse("Bearer", issuer.access(user).value, issuer.refresh(user).value)
    ensures r.Failure? ==> r.error == TokenGenerationFailed
  {
    match issuer.access(user)
    case None => Failure(TokenGenerationFailed)
    case Some(access) =>
      match issuer.refresh(user)
      case None => Failure(TokenGenerationFailed)
      case Some(refresh) => Success(JwtResponse("Bearer", access, refresh))
  }

  /** `LoginJwt`; `verify(hash, password)` is bcrypt's comparison succeeding. */
  function LoginJwt(repo: MockUserRepo, req: JwtRequest, verify: (string, string) -> bool, issuer: TokenIssuer): (r: Result<JwtResponse, Error>)
    ensures req.login !in repo.users ==> r == Failure(UserNotFound)
    ensures req.login in repo.users && !verify(repo.users[req.login].password, req.password) ==> r == Failure(Unauthorized)
    ensures req.login in repo.users && verify(repo.users[req.login].password, req.password)
            ==> r == IssuePair(repo.users[req.login], issuer)
  {
    match FindByLogin(repo, req.login)
    case Failure(_) => Failure(UserNotFound)
    case Success(user) =>
      if !verify(user.password, req.password) then Failure(Unauthorized)
      else IssuePair(user, issuer)
  }

  /**
   * `RefreshAccessToken`; `validateRefresh` is the refresh-token check, giving the
   * subject's UUID or `None`.
   */
  method RefreshAccessToken(repo: MockUserRepo, req: RefreshJwtRequest, validateRefresh: string -> Option<Uuid>, issuer: TokenIssuer)
    returns (r: Result<JwtResponse, Error>)
    ensures validateRefresh(req.refreshToken).None? ==> r == Failure(InvalidRefreshToken)
    ensures validateRefresh(req.refreshToken).Some? && !HasUuid(repo, validateRefresh(req.refreshToken).value.text)
            ==> r == Failure(UserNotFound)
    ensures validateRefresh(req.refreshToken).Some? && HasUuid(repo, validateRefresh(req.refreshToken).value.text)
            ==> exists user :: user in repo.users.Values
                            && user.uuid.text == validateRefresh(req.refreshToken).value.text
                            && r == IssuePair(user, issuer)
    ensures r.Success? ==> exists user :: user in repo.users.Values
                                       && user.uuid.text == validateRefresh(req.refreshToken).value.text
                                       && r == IssuePair(user, issuer)
    ensures r.Failure? && validateRefresh(req.refreshToken).Some? && HasUuid(repo, validateRefresh(req.refreshToken).value.text)
            ==> r == Failure(TokenGenerationFailed)
  {
    match validateRefresh(req.refreshToken)
    case None =>
      r := Failure(InvalidRefreshToken);
    case Some(id) =>
      var found := FindByUUID(repo, id.text);
      match found
      case Failure(_) =>
        r := Failure(UserNotFound);
      case Success(user) =>
        r := IssuePair(user, issuer);
  }

  /** After a registration under an unused UUID, the new user is the only one carrying it. */
  lemma OnlyRegisteredUserHasUuid(repo: MockUserRepo, req: SignUpRequest, cfg: Config, freshId: Uuid, hashed: Option<string>, u: User)
    requires RegisterUser(repo, req, cfg, freshId, hashed).err.None?
    requires !HasUuid(repo, freshId.text)
    requires u in RegisterUser(repo, req, cfg, freshId, hashed).repo.users.Values && u.uuid.text == freshId.text
    ensures u == RegisterUser(repo, req, cfg, freshId, hashed).user
  {
    var reg := RegisterUser(repo, req, cfg, freshId, hashed);
    var login :| login in reg.repo.users && reg.repo.users[login] == u;
    assert login == reg.user.login;
  }

  /**
   * A refresh token naming a user just registered under a fresh UUID yields a new
   * pair for exactly that user, given that both tokens can be signed.
   */
  method RegisterThenRefresh(repo: MockUserRepo, req: SignUpRequest, cfg: Config, freshId: Uuid, hashed: Option<string>,
                             token: string, validateRefresh: string -> Option<Uuid>, issuer: TokenIssuer)
    returns (r: Result<JwtResponse, Error>)
    requires RegisterUser(repo, req, cfg, freshId, hashed).err.None?
    requires !HasUuid(repo, freshId.text)
    requires validateRefresh(token) == Some(freshId)
    requires issuer.access(RegisterUser(repo, req, cfg, freshId, hashed).user).Some?
    requires issuer.refresh(RegisterUser(repo, req, cfg, freshId, hashed).user).Some?
    ensures var user := RegisterUser(repo, req, cfg, freshId, hashed).user;
      r == Success(JwtResponse("Bearer", issuer.access(user).value, issuer.refresh(user).value))
  {
    var reg := RegisterUser(repo, req, cfg, freshId, hashed);
    assert reg.repo.users[reg.user.login] == reg.user;
    assert HasUuid(reg.repo, freshId.text);
    r := RefreshAccessToken(reg.repo, RefreshJwtRequest(token), validateRefresh, issuer);
    var u :| u in reg.repo.users.Values && u.uuid.text == freshId.text && r == IssuePair(u, issuer);
    OnlyRegisteredUserHasUuid(repo, req, cfg, freshId, hashed, u);
  }

  /** Registering the same request a second time fails, whatever the oracles return. */
  lemma RegisterTwiceFails(repo: MockUserRepo, req: SignUpRequest, cfg: Config, id1: Uuid, h1: Option<string>, id2: Uuid, h2: Option<string>)
    requires RegisterUser(repo, req, cfg, id1, h1).err.None?
    ensures RegisterUser(RegisterUser(repo, req, cfg, id1, h1).repo, req, cfg, id2, h2).err.Some?
  {
    var first := RegisterUser(repo, req, cfg, id1, h1);
    assert StoredLogin(req.login, cfg.username) in first.repo.users;
  }

  /**
   * With `caseSensitive` off, a registered user can log in with the same login and
   * password, given that bcrypt accepts its own hash and both tokens can be signed.
   */
  lemma RegisterThenLogin(repo: MockUserRepo, req: SignUpRequest, cfg: Config, freshId: Uuid, hashed: Option<string>,
                          verify: (string, string) -> bool, issuer: TokenIssuer)
    requires !cfg.username.caseSensitive
    requires RegisterUser(repo, req, cfg, freshId, hashed).err.None?
    requires hashed.Some? && verify(hashed.value, req.password)
    requires issuer.access(User(freshId, req.login, hashed.value)).Some?
    requires issuer.refresh(User(freshId, req.login, hashed.value)).Some?
    ensures var user := RegisterUser(repo, req, cfg, freshId, hashed).user;
      LoginJwt(RegisterUser(repo, req, cfg, freshId, hashed).repo, JwtRequest(req.login, req.password), verify, issuer)
        == Success(JwtResponse("Bearer", issuer.access(user).value, issuer.refresh(user).value))
  {
  }

  /**
   * As written, `caseSensitive` lowers the stored login, so a login with an upper-case
   * letter registers but can no longer be found under the spelling it was registered with.
   */
  lemma CaseSensitiveLoginIsLowered(repo: MockUserRepo, req: SignUpRequest, cfg: Config, freshId: Uuid, hashed: Option<string>,
                                    verify: (string, string) -> bool, issuer: TokenIssuer)
    requires cfg.username.caseSensitive && ToLower(req.login) != req.login
    requires RegisterUser(repo, req, cfg, freshId, hashed).err.None?
    ensures RegisterUser(repo, req, cfg, freshId, hashed).user.login == ToLower(req.login)
    ensures LoginJwt(RegisterUser(repo, req, cfg, freshId, hashed).repo, JwtRequest(req.login, req.password), verify, issuer)
            == Failure(UserNotFound)
  {
  }

  /** Cases from the registration tests, under the test policy (8 to 64 runes, all three classes). */
  lemma PasswordExamples()
    ensures var p := PasswordPolicy(8, 64, true, true, true);
      && IsValidPassword("Password1", p).None?
      && IsValidPassword("Pass word", p) == Some(WeakPassword)
      && IsValidPassword("password1", p) == Some(WeakPassword)
      && IsValidPassword("Pass1", p) == Some(InvalidPasswordLength)
  {
    var pw := "Password1";
    assert IsUpperAscii(pw[0]) && IsLowerAscii(pw[1]) && IsDigitAscii(pw[8]);
    assert "Pass word"[4] == ' ';
    var weak := "password1";
    assert !HasUpper(weak) by {
      forall i | 0 <= i < |weak| ensures !IsUpperAscii(weak[i]) { }
    }
  }
}
