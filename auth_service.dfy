/**
 * `AuthService`: credential extraction from the `Authorization` header, token
 * claims with their expiry arithmetic, and the registration and login flows.
 *
 * The collaborators are parameters: the bcrypt hasher and comparer, the user
 * repository, the HS256 signer and the configuration (`Deps`), and the two
 * wall-clock readings taken while building a token (`TokenClock`). Each flow
 * returns, besides its result, the list of collaborator calls it made, so that
 * the order of the steps and the point where a failure stops the flow can be stated.
 */
module AuthService {
  import opened Wrappers
  import Strconv
  import opened Users

  const BearerPrefix: string := "Bearer "

  const NanosPerSecond: int := 1_000_000_000

  /** The largest whole number of seconds a `time.Duration` (int64 nanoseconds) can hold. */
  const MaxDurationSeconds: int := 9_223_372_036

  /** The JWT claims: the user id and the `exp` and `iat` registered claims, in Unix seconds. */
  datatype Claims = Claims(userId: int, expiresAt: int, issuedAt: int)

  datatype UserResponse = UserResponse(user: User, token: string)

  datatype AuthError =
    | HashingPassword(cause: string)
    | CreatingUser(cause: string)
    | GeneratingToken(inner: AuthError)
    | GettingUser(cause: string)
    | ComparingPasswords(cause: string)
    | ConvertingExpTime(setting: string)
    | SigningToken(cause: string)

  /** A call the service makes on one of its collaborators. */
  datatype Call =
    | Hash(plaintext: string)
    | InsertUser(user: User)
    | FindByEmail(email: string)
    | Compare(hash: string, plaintext: string)
    | Sign(claims: Claims, secret: string)

  /**
   * The collaborators: `hash` is `bcrypt.GenerateFromPassword`, `compare` is
   * `bcrypt.CompareHashAndPassword` (None when the password matches), `insertUser` and
   * `findByEmail` are the user repository, `sign` is HS256 signing with a secret;
   * `expiration` and `secret` are the configured `JWT.Expiration` and `JWT.Secret`.
   */
  datatype Deps = Deps(
    hash: string -> Result<string, string>,
    compare: (string, string) -> Option<string>,
    insertUser: User -> Result<User, string>,
    findByEmail: string -> Result<User, string>,
    sign: (Claims, string) -> Result<string, string>,
    expiration: string,
    secret: string)

  /** The two `time.Now()` readings of `generateToken`, in Unix nanoseconds: for `exp`, then for `iat`. */
  datatype TokenClock = TokenClock(expiryReading: int, issueReading: int)

  datatype Flow<T> = Flow(result: Result<T, AuthError>, calls: seq<Call>)

  /**
   * `FormatToken`: the rest of the header after the exact, case-sensitive prefix "Bearer ",
   * or "" when the prefix is missing or nothing follows it.
   */
  function FormatToken(header: string): (token: string)
    ensures token != "" <==> |header| > |BearerPrefix| && header[..|BearerPrefix|] == BearerPrefix
    ensures token != "" ==> BearerPrefix + token == header
    ensures |header| <= |BearerPrefix| ==> token == ""
  {
    if |header| > |BearerPrefix| && header[..|BearerPrefix|] == BearerPrefix then header[|BearerPrefix|..] else ""
  }

  /** Prefixing a credential with "Bearer " and extracting it gives the credential back. */
  lemma FormatTokenOfBearer(token: string)
    ensures FormatToken(BearerPrefix + token) == token
  {
  }

  /** The length test is strict and the prefix is case-sensitive and must end in a space. */
  lemma FormatTokenRejects()
    ensures FormatToken("Bearer ") == ""
    ensures FormatToken("bearer x") == ""
    ensures FormatToken("Bearerx") == ""
    ensures FormatToken("BEARER x") == ""
  {
    assert "bearer x"[..7] != BearerPrefix by { assert "bearer x"[0] != BearerPrefix[0]; }
    assert "BEARER x"[..7] != BearerPrefix by { assert "BEARER x"[1] != BearerPrefix[1]; }
  }

  /** `time.Duration(seconds) * time.Second`: a product that wraps around at 64 bits. */
  function DurationOfSeconds(seconds: int): (nanos: int)
    ensures -MaxDurationSeconds <= seconds <= MaxDurationSeconds ==> nanos == seconds * NanosPerSecond
  {
    Strconv.Wrap64(seconds * NanosPerSecond)
  }

  /** `jwt.NewNumericDate`: the instant rounded down to a whole second. */
  function NumericDate(unixNanos: int): (seconds: int)
    ensures seconds * NanosPerSecond <= unixNanos < (seconds + 1) * NanosPerSecond
  {
    unixNanos / NanosPerSecond
  }

  /** The claims `generateToken` signs, for an expiration that parsed to `seconds`. */
  function TokenClaims(userId: int, seconds: int, clock: TokenClock): (c: Claims)
    ensures c.userId == userId
    ensures c.issuedAt == NumericDate(clock.issueReading)
    ensures -MaxDurationSeconds <= seconds <= MaxDurationSeconds ==>
      c.expiresAt == NumericDate(clock.expiryReading) + seconds
  {
    Claims(userId, NumericDate(clock.expiryReading + DurationOfSeconds(seconds)), NumericDate(clock.issueReading))
  }

  /**
   * `generateToken`: fails when the configured expiration is not an integer, and then signs
   * nothing; otherwise signs exactly one set of claims, for `userId`, issued now and expiring
   * that many seconds later, and returns the signer's token or its error.
   */
  function GenerateToken(deps: Deps, clock: TokenClock, userId: int): (f: Flow<string>)
    ensures Strconv.Atoi(deps.expiration).None? ==>
      f.result == Failure(ConvertingExpTime(deps.expiration)) && f.calls == []
    ensures Strconv.Atoi(deps.expiration).Some? ==>
      |f.calls| == 1 && f.calls[0].Sign? && f.calls[0].secret == deps.secret &&
      f.calls[0].claims.userId == userId &&
      f.calls[0].claims.issuedAt == NumericDate(clock.issueReading) &&
      (-MaxDurationSeconds <= Strconv.Atoi(deps.expiration).value <= MaxDurationSeconds ==>
        f.calls[0].claims.expiresAt == NumericDate(clock.expiryReading) + Strconv.Atoi(deps.expiration).value)
    ensures Strconv.Atoi(deps.expiration).Some? ==>
      var signed := deps.sign(f.calls[0].claims, deps.secret);
      (signed.Success? ==> f.result == Success(signed.value)) &&
      (signed.Failure? ==> f.result == Failure(SigningToken(signed.error)))
  {
    match Strconv.Atoi(deps.expiration)
    case None => Flow(Failure(ConvertingExpTime(deps.expiration)), [])
    case Some(seconds) =>
      var claims := TokenClaims(userId, seconds, clock);
      var signed := deps.sign(claims, deps.secret);
      var result := match signed
        case Success(token) => Success(token)
        case Failure(e) => Failure(SigningToken(e));
      Flow(result, [Sign(claims, deps.secret)])
  }

  /** When both clock readings fall in the same second, the token lives exactly the configured number of seconds. */
  lemma TokenLifetime(deps: Deps, clock: TokenClock, userId: int)
    requires Strconv.Atoi(deps.expiration).Some?
    requires -MaxDurationSeconds <= Strconv.Atoi(deps.expiration).value <= MaxDurationSeconds
    requires NumericDate(clock.expiryReading) == NumericDate(clock.issueReading)
    ensures var c := GenerateToken(deps, clock, userId).calls[0].claims;
      c.expiresAt - c.issuedAt == Strconv.Atoi(deps.expiration).value
  {
  }

  /**
   * One second more than a `time.Duration` can hold wraps the product negative: the
   * token expires about 292 years before it is issued.
   */
  lemma OverlongExpirationWraps(deps: Deps, clock: TokenClock, userId: int)
    requires Strconv.Atoi(deps.expiration) == Some(MaxDurationSeconds + 1)
    requires clock.expiryReading <= clock.issueReading
    ensures var c := GenerateToken(deps, clock, userId).calls[0].claims;
      c.expiresAt < c.issuedAt
  {
  }

  /** The user row `Register` hands to the repository. */
  function NewUserRecord(req: RegisterRequest, hashed: string, createdAt: string, updatedAt: string): (u: User)
    ensures u.username == req.username && u.email == req.email && u.password == hashed
    ensures u.role == "user" && u.id == 0
    ensures u.createdAt == createdAt && u.updatedAt == updatedAt
  {
    User(0, req.username, hashed, req.email, "user", createdAt, updatedAt)
  }

  /**
   * `Register`: hash the password, insert the user, generate a token for the id the
   * repository assigned; the first failure ends the flow and no later step runs.
   * `createdAt` and `updatedAt` are the two formatted clock readings.
   */
  function Register(deps: Deps, createdAt: string, updatedAt: string, clock: TokenClock, req: RegisterRequest)
    : (f: Flow<UserResponse>)
    ensures |f.calls| >= 1 && f.calls[0] == Hash(req.password)
    ensures deps.hash(req.password).Failure? ==>
      f.result == Failure(HashingPassword(deps.hash(req.password).error)) && |f.calls| == 1
    ensures deps.hash(req.password).Success? ==>
      |f.calls| >= 2 && f.calls[1].InsertUser? &&
      f.calls[1].user.username == req.username && f.calls[1].user.email == req.email &&
      f.calls[1].user.role == "user" && f.calls[1].user.password == deps.hash(req.password).value &&
      f.calls[1].user.id == 0 && f.calls[1].user.createdAt == createdAt && f.calls[1].user.updatedAt == updatedAt
    ensures deps.hash(req.password).Success? && deps.insertUser(f.calls[1].user).Failure? ==>
      f.result == Failure(CreatingUser(deps.insertUser(f.calls[1].user).error)) && |f.calls| == 2
    ensures f.result.Success? ==>
      deps.hash(req.password).Success? && deps.insertUser(f.calls[1].user).Success? &&
      f.result.value.user == deps.insertUser(f.calls[1].user).value &&
      |f.calls| == 3 && f.calls[2].Sign? && f.calls[2].claims.userId == f.result.value.user.id &&
      deps.sign(f.calls[2].claims, deps.secret) == Success(f.result.value.token)
    ensures f.result.Failure? && |f.calls| != 1 && |f.calls| != 2 ==> f.result.error.GeneratingToken?
    ensures deps.hash(req.password).Success? && deps.insertUser(f.calls[1].user).Success? ==>
      var stored := deps.insertUser(f.calls[1].user).value;
      var g := GenerateToken(deps, clock, stored.id);
      f.calls[2..] == g.calls &&
      f.result == (if g.result.Success? then Success(UserResponse(stored, g.result.value))
                   else Failure(GeneratingToken(g.result.error)))
  {
    var hashed := deps.hash(req.password);
    if hashed.Failure? then
      Flow(Failure(HashingPassword(hashed.error)), [Hash(req.password)])
    else
      var record := NewUserRecord(req, hashed.value, createdAt, updatedAt);
      var stored := deps.insertUser(record);
      if stored.Failure? then
        Flow(Failure(CreatingUser(stored.error)), [Hash(req.password), InsertUser(record)])
      else
        var token := GenerateToken(deps, clock, stored.value.id);
        var calls := [Hash(req.password), InsertUser(record)] + token.calls;
        match token.result
        case Failure(e) => Flow(Failure(GeneratingToken(e)), calls)
        case Success(t) => Flow(Success(UserResponse(stored.value, t)), calls)
  }

  /**
   * `Login`: look the user up by email, compare the stored hash with the supplied password,
   * and only then generate a token for the found user's id. A lookup or comparison failure
   * returns no token and signs nothing; token errors are returned without extra wrapping.
   */
  function Login(deps: Deps, clock: TokenClock, req: LoginRequest): (f: Flow<string>)
    ensures |f.calls| >= 1 && f.calls[0] == FindByEmail(req.email)
    ensures deps.findByEmail(req.email).Failure? ==>
      f.result == Failure(GettingUser(deps.findByEmail(req.email).error)) && |f.calls| == 1
    ensures deps.findByEmail(req.email).Success? ==>
      var stored := deps.findByEmail(req.email).value;
      |f.calls| >= 2 && f.calls[1] == Compare(stored.password, req.password) &&
      (deps.compare(stored.password, req.password).Some? ==>
        f.result == Failure(ComparingPasswords(deps.compare(stored.password, req.password).value)) && |f.calls| == 2)
    ensures f.result.Success? ==>
      deps.findByEmail(req.email).Success? &&
      deps.compare(deps.findByEmail(req.email).value.password, req.password).None? &&
      |f.calls| == 3 && f.calls[2].Sign? &&
      f.calls[2].claims.userId == deps.findByEmail(req.email).value.id &&
      deps.sign(f.calls[2].claims, deps.secret) == Success(f.result.value)
    ensures (deps.findByEmail(req.email).Success? &&
             deps.compare(deps.findByEmail(req.email).value.password, req.password).None?) ==>
      var g := GenerateToken(deps, clock, deps.findByEmail(req.email).value.id);
      f.calls[2..] == g.calls && f.result == g.result
  {
    var found := deps.findByEmail(req.email);
    if found.Failure? then
      Flow(Failure(GettingUser(found.error)), [FindByEmail(req.email)])
    else
      var asked := [FindByEmail(req.email), Compare(found.value.password, req.password)];
      var mismatch := deps.compare(found.value.password, req.password);
      if mismatch.Some? then
        Flow(Failure(ComparingPasswords(mismatch.value)), asked)
      else
        var token := GenerateToken(deps, clock, found.value.id);
        Flow(token.result, asked + token.calls)
  }

  /**
   * When the configured expiration is not an integer, every registration that gets past
   * hashing inserts the user and then fails: the row stays, and no token is signed.
   */
  lemma RegisterWithUnparsableExpiration(deps: Deps, createdAt: string, updatedAt: string, clock: TokenClock,
                                         req: RegisterRequest)
    requires Strconv.Atoi(deps.expiration).None?
    requires deps.hash(req.password).Success?
    requires deps.insertUser(NewUserRecord(req, deps.hash(req.password).value, createdAt, updatedAt)).Success?
    ensures var f := Register(deps, createdAt, updatedAt, clock, req);
      |f.calls| == 2 && f.calls[1] == InsertUser(NewUserRecord(req, deps.hash(req.password).value, createdAt, updatedAt)) &&
      f.result == Failure(GeneratingToken(ConvertingExpTime(deps.expiration)))
  {
    var f := Register(deps, createdAt, updatedAt, clock, req);
    assert f.calls[2..] == [];
  }

  /**
   * An unknown email and a wrong password fail with different errors, so a caller of
   * `Login` can tell whether an email is registered.
   */
  lemma LoginRevealsUnknownEmail(deps: Deps, clock: TokenClock, unknown: LoginRequest, known: LoginRequest)
    requires deps.findByEmail(unknown.email).Failure?
    requires deps.findByEmail(known.email).Success?
    requires deps.compare(deps.findByEmail(known.email).value.password, known.password).Some?
    ensures Login(deps, clock, unknown).result.error.GettingUser?
    ensures Login(deps, clock, known).result.error.ComparingPasswords?
    ensures Login(deps, clock, unknown).result != Login(deps, clock, known).result
  {
  }

  /**
   * Registering and then logging in with the same email and password reaches the signer
   * with claims for the id the repository assigned at registration, provided the repository
   * stores the record it was given and bcrypt accepts its own hash.
   */
  lemma RegisterThenLogin(deps: Deps, createdAt: string, updatedAt: string, regClock: TokenClock,
                          loginClock: TokenClock, req: RegisterRequest)
    requires deps.hash(req.password).Success?
    requires var record := NewUserRecord(req, deps.hash(req.password).value, createdAt, updatedAt);
      deps.insertUser(record).Success? &&
      deps.insertUser(record).value == record.(id := deps.insertUser(record).value.id)
    requires Register(deps, createdAt, updatedAt, regClock, req).result.Success?
    requires deps.findByEmail(req.email) == Success(Register(deps, createdAt, updatedAt, regClock, req).result.value.user)
    requires deps.compare(deps.hash(req.password).value, req.password).None?
    ensures var login := Login(deps, loginClock, LoginRequest(req.email, req.password));
      |login.calls| == 3 && login.calls[2].Sign? &&
      login.calls[2].claims.userId == Register(deps, createdAt, updatedAt, regClock, req).result.value.user.id &&
      (login.result.Success? <==> deps.sign(login.calls[2].claims, deps.secret).Success?)
  {
  }
}
