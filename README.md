# article-hub authentication and request core, modelled in Dafny

This project models the logic of the article-hub blogging backend (Go, Echo, sqlx) that
does more than move data between HTTP, SQL and libraries:

- **Bearer-credential extraction**, two ways. `AuthService.FormatToken` strips the exact
  prefix `"Bearer "`. The `AuthMiddleware` check splits the header on spaces and demands
  exactly `["Bearer", token]`. The model proves what each accepts and where they disagree.
- **Token claims and the auth flows.** `generateToken` parses the configured expiration
  with `strconv.Atoi` and computes `exp = now + seconds` in 64-bit nanoseconds.
  `Register` hashes, inserts and signs, and `Login` looks up, compares and signs; each stops
  at its first failure. The collaborators (bcrypt, the user repository, the HS256 signer,
  the configuration and the clock) are parameters. Each flow returns the list of calls it
  made on them, so the order of the steps and where a failure stops the flow can be stated.
- **Request validation.** The `validate` struct tags of the register, login, article and
  comment requests are modelled, together with the part of go-playground/validator they
  rely on. The model reports the first failing tag per field, fields in declaration order.
  Each `Validate` method is modelled with its `strings.Builder` loop, proved against a
  rendering function. Lemmas show the message has exactly one newline-terminated line per
  failure, in reported order.
- **`NewErrorResponse`**, and the **article and comment services**. Each service operation
  makes one repository call. Creating an article or a comment builds the row from the
  request and the caller's user id. Updating an article builds the row from the request and
  the article id. Listing, reading and deleting pass only an id, or nothing, through.
  Update and delete take no user id and check no ownership; the model keeps that behaviour.

Modules follow the Go packages. `Text` models `strings.Split`/`Join` and `Strconv` models
`strconv.Atoi`/`Itoa` and 64-bit wrap-around. `Validation` models the validator and the
message rendering. `Users`, `Articles` and `Comments` model `internal/models`. `AuthService`,
`AuthMiddleware`, `ArticleService`, `CommentService` and `Errors` model their Go namesakes.

Strings are sequences of Unicode characters. The validator's `min`/`max` count characters
(runes), so `|s|` is exact there. Go's `len` and slicing in `FormatToken` count bytes, but
the prefix is ASCII, so the character model gives the same answers for valid UTF-8. The
same holds for splitting on the ASCII space.

Three behaviours of the code are kept as written:

- `Login` fails with different errors for an unknown email and for a wrong password
  (`LoginRevealsUnknownEmail`). The login handler puts that error text into the details of
  its 401 response (internal/delivery/rest/auth_handler.go:56-62), so a client can tell
  whether an email is registered.
- The service's `Register` returns the repository's user, bcrypt hash included, in its
  `UserResponse` (`Register`).
- The code has no like-uniqueness logic, and update and delete never report a missing
  article.

## Model

| member | source | states |
|---|---|---|
| `Text.Split` | internal/middlewares/auth_middleware.go:26 | `strings.Split` on one character always yields at least one part |
| `Text.JoinSplit` | internal/middlewares/auth_middleware.go:26 | joining the parts of a split with the separator restores the header |
| `Text.SplitJoin` | internal/middlewares/auth_middleware.go:26 | splitting a join of separator-free parts yields exactly those parts |
| `Text.SplitCount` | internal/middlewares/auth_middleware.go:26-27 | the number of parts is the number of separators plus one |
| `Text.SplitPiecesHaveNoSeparator` | internal/middlewares/auth_middleware.go:26 | no part contains the separator |
| `Strconv.Atoi` | internal/services/auth_service.go:85-88 | a parsed expiration is a 64-bit value from a string that is all digits, or a '+' or '-' followed by at least one digit and nothing else; the empty string fails; a digit string, signed or not, parses to its signed decimal value when that fits 64 bits and fails with a range error otherwise |
| `Strconv.AtoiRejects` | internal/services/auth_service.go:85-88 | "24h", "1.5", "+" and "-" are syntax errors |
| `Strconv.AtoiItoa` | internal/services/auth_service.go:85 | every 64-bit integer written in decimal parses back to itself |
| `Strconv.Wrap64` | internal/services/auth_service.go:93 | a product stored in a Go `int64` lands in range, is unchanged when it fits, and differs by a multiple of 2^64 |
| `Validation.FirstViolation` | internal/models/user.go:33 | a field has a violation exactly when some tag fails, and the reported tag is the first failing one: every tag before it holds |
| `Validation.Report` | internal/models/user.go:33 | a field yields at most one failure, and one exactly when some tag fails; that failure carries the field's name and the tag and parameter of its first failing rule |
| `Validation.Failures` | internal/models/user.go:33 | `validate.Struct` reports at most as many failures as there are fields, each tagged required, min, max or email |
| `Validation.NoFailuresIff` | internal/models/user.go:33-34 | `validate.Struct` reports nothing if and only if every field meets every one of its tags |
| `Validation.FailuresPerField` | internal/models/user.go:33-36 | the failures correspond one to one, in order, to the failing fields in increasing position, and the k-th failure is the first failing tag of the k-th failing field |
| `Validation.FailuresNameFields` | internal/models/user.go:36 | every failure names a field of the struct |
| `Validation.Line` | internal/models/user.go:37-48 | every rendered line begins with "Field " |
| `Validation.Render` | internal/models/user.go:35-50 | the builder's content is empty exactly when there is no failure |
| `Validation.Lines` | internal/models/user.go:36-49 | the i-th line of the message is the rendering of the i-th failure |
| `Validation.RenderAppend` | internal/models/article.go:31-35 | the message for a concatenation of failures is the concatenation of their messages, in order |
| `Validation.RenderSplitsIntoLines` | internal/models/user.go:35-50 | cut at newlines, the message is one line per failure in reported order plus an empty tail; it holds exactly one newline per failure |
| `Validation.WriteFieldTagMessage` | internal/models/article.go:31-35 | the builder loop writes "Field <field> <tag>\n" for each failure in order |
| `Users.RegisterConstraints` | internal/models/user.go:20-22 | a registration validates iff the username has 3-50 characters, the password at least 6, and the email is present and email-shaped |
| `Users.EmptyUsernameIsRequired` | internal/models/user.go:20-39 | an empty username is reported first as "required", worded "Field Username is required", not as too short |
| `Users.LoginConstraints` | internal/models/user.go:26-27 | a login validates iff the email is present and email-shaped and the password is non-empty, with no length bounds |
| `Users.WriteRegisterMessage` | internal/models/user.go:35-49 | the builder loop writes one line per failure: required, email, min and max (with the parameter) worded specially, others generic |
| `Users.WriteLoginMessage` | internal/models/user.go:60-70 | the builder loop words only required and email specially; every other tag gets the generic line |
| `Users.ValidateRegisterRequest` | internal/models/user.go:30-53 | nil iff the request meets its constraints; otherwise the message has exactly one line per reported failure, in order |
| `Users.ValidateLoginRequest` | internal/models/user.go:55-74 | nil iff the login meets its constraints; otherwise one line per reported failure, in order |
| `Articles.ArticleConstraints` | internal/models/article.go:22-23 | an article validates iff the title has 3-40 characters and the content 10-1000 |
| `Articles.ValidateArticleRequest` | internal/models/article.go:26-38 | nil iff the article meets its constraints; otherwise one "Field <field> <tag>" line per failure, in order |
| `Comments.CommentConstraints` | internal/models/comment.go:19 | a comment validates iff its content has 10-1000 characters |
| `Comments.ValidateCommentRequest` | internal/models/comment.go:22-34 | nil iff the content meets its constraints; otherwise one "Field <field> <tag>" line per failure |
| `AuthService.FormatToken` | internal/services/auth_service.go:129-135 | the result is non-empty iff the header is longer than 7 and starts with the exact "Bearer "; then prefix plus result is the header; a header of 7 or fewer gives "" |
| `AuthService.FormatTokenOfBearer` | internal/services/auth_service.go:130-132 | extracting from "Bearer " + t gives t back, for every t |
| `AuthService.FormatTokenRejects` | internal/services/auth_service.go:131-134 | "Bearer ", "bearer x", "Bearerx" and "BEARER x" all give "" |
| `AuthService.NumericDate` | internal/services/auth_service.go:93-94 | the instant rounded down to whole seconds: the result times 10^9 is at most the reading, and one second more exceeds it |
| `AuthService.DurationOfSeconds` | internal/services/auth_service.go:93 | within the range a Duration can hold, the duration is seconds times 10^9 nanoseconds |
| `AuthService.TokenClaims` | internal/services/auth_service.go:90-96 | the claims carry the user id, iat is the issue reading in whole seconds, and exp is the expiry reading plus the configured seconds |
| `AuthService.GenerateToken` | internal/services/auth_service.go:84-106 | a non-integer expiration fails and signs nothing; otherwise exactly one set of claims for the user id is signed with the secret, and the signer's token or error is returned |
| `AuthService.TokenLifetime` | internal/services/auth_service.go:93-94 | with both clock readings in the same second, exp minus iat is exactly the configured expiration |
| `AuthService.OverlongExpirationWraps` | internal/services/auth_service.go:93 | an expiration one second past what a Duration holds wraps, and the token expires before it is issued |
| `AuthService.NewUserRecord` | internal/services/auth_service.go:42-49 | the row carries the request's username and email, the hash as its password, role "user", id zero and the two formatted stamps |
| `AuthService.Register` | internal/services/auth_service.go:33-65 | hashing comes first; the stored row has the request's username and email, role "user" and the hash, never the plaintext; a hashing or insert failure stops the flow; after both succeed the remaining calls are exactly those of `GenerateToken` for the stored id, and the result is the stored user with its token, or the token error wrapped |
| `AuthService.RegisterWithUnparsableExpiration` | internal/services/auth_service.go:51-88 | with a non-integer expiration, a registration that gets past hashing inserts the user and then fails, signing nothing |
| `AuthService.Login` | internal/services/auth_service.go:67-82 | a lookup failure stops before the comparison; a comparison failure stops before signing; after both succeed the remaining calls and the result are exactly those of `GenerateToken` for the found user's id, its error unwrapped |
| `AuthService.LoginRevealsUnknownEmail` | internal/services/auth_service.go:71-79 | an unknown email and a wrong password fail with different errors |
| `AuthService.RegisterThenLogin` | internal/services/auth_service.go:33-82 | after a successful registration, logging in with the same credentials signs claims for the registered id, provided the store keeps the row and bcrypt accepts its own hash |
| `AuthMiddleware.BearerCredential` | internal/middlewares/auth_middleware.go:26-27 | an accepted header is "Bearer " followed by the credential, which holds no space |
| `AuthMiddleware.BearerCredentialIff` | internal/middlewares/auth_middleware.go:26-29 | the format check accepts a header with credential t iff the header is "Bearer " + t and t has no space |
| `AuthMiddleware.BearerCredentialShape` | internal/middlewares/auth_middleware.go:26-31 | an accepted header starts with "Bearer " and the credential is the rest, free of spaces |
| `AuthMiddleware.BearerCredentialNeedsOneSpace` | internal/middlewares/auth_middleware.go:26-27 | an accepted header holds exactly one space |
| `AuthMiddleware.Authenticate` | internal/middlewares/auth_middleware.go:19-40 | an empty header and a malformed one get 401 without running the validator; otherwise the validator sees exactly the second part; its error becomes a 401, its claims' user id is set and the next handler runs |
| `AuthMiddleware.ProceedsIff` | internal/middlewares/auth_middleware.go:26-38 | the next handler runs iff the header is "Bearer " plus a space-free credential the validator accepts, as that credential's user |
| `AuthMiddleware.SecondSpaceRejected` | internal/middlewares/auth_middleware.go:26-29 | any header "Bearer " + t with a space in t is a format error |
| `AuthMiddleware.ParsersCompared` | internal/middlewares/auth_middleware.go:26-31 | a non-empty credential the middleware accepts is what `FormatToken` extracts; the empty one gives ""; a `FormatToken` result with a space is rejected by the middleware |
| `AuthMiddleware.SpacedCredentialsDisagree` | internal/middlewares/auth_middleware.go:26-29 | for every credential containing a space, such as "Bearer a b" or "Bearer  x", `FormatToken` extracts it whole and the middleware rejects the header as malformed |
| `Errors.NewErrorResponse` | internal/errors/errors.go:9-22 | code and message are copied; details is the first detail when there is one and "" when there is none |
| `Errors.LaterDetailsIgnored` | internal/errors/errors.go:10-15 | details after the first never reach the response |
| `ArticleService.GetAllArticles` | internal/services/article_service.go:30-40 | the repository's list on success, its error wrapped otherwise |
| `ArticleService.GetById` | internal/services/article_service.go:42-52 | the repository's article for that id on success, its error wrapped otherwise |
| `ArticleService.CreateArticle` | internal/services/article_service.go:54-66 | title and content are copied unchanged, the owner passed is the authenticated user id (the row's own owner field stays unset), and the repository's error is returned unchanged |
| `ArticleService.UpdateArticle` | internal/services/article_service.go:68-80 | the row has the given id and the request's title and content, its creation stamp is empty, and the repository's answer is returned |
| `ArticleService.DeleteArticle` | internal/services/article_service.go:82-87 | deletes the given id and returns the repository's answer unchanged |
| `ArticleService.MutationsIgnoreOwnership` | internal/services/article_service.go:68-87 | update and delete never read stored articles, so their outcome does not depend on who owns the article |
| `CommentService.CreateComment` | internal/services/comment_service.go:25-42 | the row has the given article id, author id and content, and goes to the repository under the same article id; success returns it with id zero; a repository error is returned unchanged with no comment |

## Left out

- `AuthService.ValidateToken` (JWT parsing, HS256 verification, expiry): a foreign library. The middleware takes the validator as a parameter.
- bcrypt hashing and comparison, the user and article and comment repositories (SQL through sqlx), and HS256 signing are parameters. The `sql.ErrNoRows` checks after `Exec` in the article repository can never fire, so no NotFound result is modelled for update or delete.
- The Go declarations of `models.Claims` and `models.UserResponse` are not among the sources modelled here. `AuthService.Claims` and `AuthService.UserResponse` take their fields from the way internal/services/auth_service.go builds them.
- Time formatting with `time.Now().Format(...)`: the formatted stamps are parameters. `CreatedAt` and `UpdatedAt` are separate readings and are not assumed equal.
- The clock is Unix nanoseconds. The saturation of `time.Time.Add` beyond the range of its second counter is not modelled.
- `context.WithTimeout` and cancellation: concurrency plumbing.
- Error texts: errors are constructors carrying their cause, not the `fmt.Errorf` strings. Some format constants the services use (`ErrCreatingUser`, `ErrGeneratingToken`) are missing from `messages.go`. The article reads wrap with `%w` applied to a string constant. Neither rendering is modelled.
- The validator is modelled only for `required`, `min`, `max` and `email`. The email address grammar is a predicate parameter. Struct-level validator errors (`InvalidValidationError`) and the unused `msg:` tags are not modelled.
- `LikeArticle`/`UnlikeArticle`: they call repository methods the repository interface does not declare, and no like-uniqueness logic exists to model.
- `CommentService.GetAllComments`: not part of the modelled core. It returns the repository's slice where a pointer to a slice is declared.
- HTTP handlers, database setup, configuration loading, message constants and response structs: transport and plumbing.
- `Validation.Failures`: its own contract bounds only the total number of failures. That each field yields at most one failure, in field order, is stated by `Validation.FailuresPerField`.
- `AuthService.GenerateToken`: the expiry is stated as "now + seconds" only for expirations of at most 9223372036 seconds in magnitude. Beyond that the model wraps as Go does, and the consequence is stated for one value only (`AuthService.OverlongExpirationWraps`).
- `AuthService.TokenClaims`: the same range limit applies to its expiry statement.
