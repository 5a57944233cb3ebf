# User authentication: admission and login, modelled in Dafny

This project models the request-admission and login core of a Go user-management
service:

- **router.go**: the admission middleware. It reads the `Authorization` header, splits it on single
  spaces and accepts only `Bearer <token>`. It then asks a token validator and passes the
  request on only on `(true, nil)`. The file also holds the route table. Every `/user`
  route has the middleware in front of its handler. `/auth/login` does not.
- **auth_service.go**: `Login`. It checks the username, then the password, then looks the
  account up once, then verifies the password, then creates a token. Each step has its own
  error, and every failure returns the empty token.
- **jwt.go**: the `AuthToken` object. `Create` checks the secret, the user id and the user
  name, in that order, and then builds and signs a claim set. `Validate` maps the JWT
  parser's answer to `(bool, error)`. It gives the parser an HS256-only allow-list.
- **user_service.go**: the input guards the user service applies before it hashes a
  password or calls the repository.
- **user_repo_pg.go**: the mapping between the `user_accounts` row and the `User` entity.
  The file also decides how each repository call classifies the database's answer.

The collaborators are parameters of the model. These are bcrypt, HMAC-SHA256 signing, JWT
parsing, the repository port, the database's answers and the clock. Operations that must
not call a collaborator return the list of external calls they made (`steps`). "Never
calls the repository" is then a statement about that list. `Jwt.AuthToken` is a class
because `Create` updates its fields in place. Three repository operations are methods.
`UserRepoPg.ToEntityUsers` is a loop that appends to a sequence. `UserRepoPg.Create`
updates the row it builds step by step, and `UserRepoPg.Get` calls `ToEntityUsers`.
Everything else is a function over values.

Where the code's behaviour may be unexpected, the model follows the code:

- `Create` checks the secret before the user id.
- The lifetime is a fixed two hours, not the configured expiry.
- A lookup error is returned unchanged, not wrapped.
- The token names the username the caller gave, not the stored one.

## Model

| member | source | states |
|---|---|---|
| `Router.Split` | internal/router/router.go:55 | splitting on a separator gives at least one piece, no piece holds the separator, and joining the pieces gives back the header |
| `Router.SplitOfJoin` | internal/router/router.go:55 | splitting undoes joining when no piece holds the separator, so the pieces of a header are unique |
| `Router.BearerToken` | internal/router/router.go:55-62 | a token is extracted only from a header that is exactly "Bearer", one space, and a token without spaces |
| `Router.BearerTokenOfWellFormed` | internal/router/router.go:55-62 | conversely, every "Bearer " + token with no space in the token yields exactly that token, the empty one included |
| `Router.AuthMiddleware` | internal/router/router.go:46-77 | every rejection is 401; an empty header is exactly the missing-header rejection; the request is admitted iff the header is non-empty, well-formed and the validator answers `(true, nil)` for its token; an admitted token is the one the validator approved; a validator error is reported as given |
| `Router.MalformedHeaderRejected` | internal/router/router.go:55-60 | any non-empty header whose space-separated pieces are not exactly two with "Bearer" first is rejected as malformed |
| `Router.RejectsOtherScheme` | internal/router/router.go:55-60 | "Basic xyz" is rejected as malformed |
| `Router.RejectsLowerCaseScheme` | internal/router/router.go:55-60 | "bearer xyz" is rejected as malformed: the scheme is case-sensitive |
| `Router.RejectsExtraPiece` | internal/router/router.go:55-60 | "Bearer a b" is rejected as malformed |
| `Router.RejectsDoubledSpace` | internal/router/router.go:55-60 | "Bearer  x" is rejected as malformed |
| `Router.EmptyBearerTokenForwarded` | internal/router/router.go:55-62 | "Bearer " passes the format check and the validator is asked about "" |
| `Router.AdmitsValidBearer` | internal/router/router.go:62-75 | a well-formed header whose token the validator accepts is admitted with that token |
| `Router.ValidatorErrorRejects` | internal/router/router.go:62-67 | a validator error rejects with 401 whatever boolean accompanies it: the error is checked before validity |
| `Router.InvalidTokenRejects` | internal/router/router.go:69-73 | a `(false, nil)` answer rejects with 401 |
| `Router.ValidatorNotConsultedOnBadHeader` | internal/router/router.go:49-60 | on a missing or malformed header the outcome is a rejection that does not depend on the validator |
| `Router.RegisterUserRoutes` | internal/router/router.go:80-87 | adds exactly four routes after the existing ones, in this order: `POST /user` to Create, `GET /user` to Get, `GET /user/:id` to GetByID and `PUT /user/:id` to Update, each with the middleware first and its handler second |
| `Router.RegisterAuthRoutes` | internal/router/router.go:90-93 | adds "/auth/login" with its handler and no middleware |
| `Router.Routes` | internal/router/router.go:36-39 | in the full route table every route under "/user" is guarded and "/auth/login" is not |
| `Router.RoutesTable` | internal/router/router.go:36-39 | the full route table is the four user routes, in their registration order, followed by the open `GET /auth/login` |
| `Router.FindRoute` | internal/router/router.go:80-93 | a route found has the requested method and path and is in the table; nothing is found exactly when no route has that method and path |
| `Router.UserRoutesFound` | internal/router/router.go:83-86 | each user endpoint's method and path find the route registered for it, with its own handler behind the middleware |
| `Router.AdmittedChainRuns` | internal/router/router.go:75 | once the middleware admits the request, a guarded chain runs on to its handler |
| `Router.UserRoutesServed` | internal/router/router.go:80-87 | with an admitting middleware, `POST /user`, `GET /user`, `GET /user/:id` and `PUT /user/:id` are served by Create, Get, GetByID and Update respectively |
| `Router.RunChain` | internal/router/router.go:46-77 | a chain that starts with the middleware reaches a handler only after admission, and a rejection aborts it with the middleware's 401 |
| `Router.UserHandlersBehindMiddleware` | internal/router/router.go:80-87 | for every registered "/user" route a handler is reached iff the middleware admits the request, and otherwise the response is its 401 rejection |
| `Router.LoginRouteOpen` | internal/router/router.go:90-93 | the login handler is reached whatever the Authorization header says |
| `AuthService.Login` | internal/core/auth/auth_service.go:40-74 | every failure returns ""; empty username or password fail with their own errors before any external call; at most one lookup, for the caller's username; a lookup error is returned unchanged; the password is checked against the fetched hash; a mismatch after a successful lookup is exactly `IncorrectPwd` after the lookup and the check, with no token creation; a token is created only right after a successful check, for the fetched id and the caller's username; after a match, the login succeeds with the encoded token exactly when `Create` issues one, and fails with `TokenCreation` otherwise |
| `AuthService.NoTokenWithoutMatch` | internal/core/auth/auth_service.go:58-73 | a successful login implies the lookup succeeded and the supplied password verified against the fetched hash |
| `AuthService.ZeroIdAccountGetsNoToken` | internal/core/auth/auth_service.go:66-71 | an account fetched with id 0 and a matching password still fails with `TokenCreation` |
| `Jwt.Creation` | pkg/jwt/jwt.go:68-91 | an empty secret gives `ErrHashUnavailable`; then a non-positive id gives the invalid-id error; then an empty name gives the empty-name error; otherwise an HS256 token is built with the given id and name, the fixed issuer and subject, issued at `now` and expiring exactly two hours later; the encoded token is the signer's output and a signing error is passed on |
| `Jwt.AuthToken.constructor` | pkg/jwt/jwt.go:34-42 | takes the secret and the expiry; no token and an empty encoded token |
| `Jwt.AuthToken.CreateAccessToken` | pkg/jwt/jwt.go:44-66 | records the built token before signing; records the encoded token only when signing succeeds, otherwise keeps the old one and returns the signer's error; secret and expiry unchanged |
| `Jwt.AuthToken.Create` | pkg/jwt/jwt.go:68-91 | error, recorded token and encoded token are those of `Creation`: a guard failure changes nothing and the encoded token changes only on success |
| `Jwt.Validate` | pkg/jwt/jwt.go:93-113 | never `(true, error)`; the parser is given the HS256 allow-list and the clock reading `at`; an error exactly when it fails, and it is the parser's error; valid exactly when the parse succeeded with the right claims type and a valid token |
| `Jwt.OnlyHS256Accepted` | pkg/jwt/jwt.go:94-101 | with a parser that enforces the allow-list, a token declaring any algorithm other than HS256 gets `(false, error)` |
| `Jwt.CreatedTokenValidates` | pkg/jwt/jwt.go:93-108 | with a parser that accepts its signer's tokens while they are in force, a token issued by `Create` validates as `(true, nil)` under the same secret at any time from its issue until two hours later |
| `UserService.Create` | internal/core/user/user_service.go:32-52 | an empty email, username or password fails with `ErrInvalidUserDetails` and no external call; on valid input a hashing error is returned with the zero user and no repository call; otherwise one insert of the input with the password's hash filled in, whose error is returned with the zero user and whose success is returned as it is |
| `UserService.GetByID` | internal/core/user/user_service.go:54-65 | a non-positive id fails with `ErrInvalidUserID` and no repository call; otherwise exactly one lookup and its answer, user and error, as given |
| `UserService.Get` | internal/core/user/user_service.go:67-74 | one repository call, whose users and error are passed on as they are, on both paths |
| `UserService.Update` | internal/core/user/user_service.go:76-87 | an empty email or username fails with `ErrInvalidUserDetails` and no repository call; otherwise exactly one update call of the input, whose error is returned with the zero user and whose success is returned as it is |
| `UserService.UpdateAcceptsEmptyPassword` | internal/core/user/user_service.go:76-79 | an empty plaintext password does not stop an update |
| `UserRepoPg.ToRepoUser` | internal/core/user/user_repo_pg.go:45-59 | the row carries the account's id, names, hash and flags; created and modified times are the same reading `now`; the password-change time is the zero time |
| `UserRepoPg.ToEntityUser` | internal/core/user/user_repo_pg.go:61-70 | the entity carries the row's account fields and an empty plaintext password |
| `UserRepoPg.EntityRoundTrip` | internal/core/user/user_repo_pg.go:45-70 | storing an account and reading it back gives the account with only its plaintext password emptied |
| `UserRepoPg.RowRoundTrip` | internal/core/user/user_repo_pg.go:45-70 | reading a row and storing it again changes only its three timestamps |
| `UserRepoPg.ToEntityUsers` | internal/core/user/user_repo_pg.go:72-78 | same length and order, element i the entity of row i |
| `UserRepoPg.Create` | internal/core/user/user_repo_pg.go:80-90 | the row written has the account's fields, both creation stamps from the first reading and the password-change stamp from the second; an insert error gives the zero user; success gives the input with the stored key as id and no plaintext password |
| `UserRepoPg.SelectedColumns` | internal/core/user/user_repo_pg.go:95-96 | reading only username, email and the two flags leaves id 0 and an empty hash |
| `UserRepoPg.GetByID` | internal/core/user/user_repo_pg.go:92-102 | queries by the id; a failure gives the zero user and a wrapped error; success gives the row's username, email and flags with id 0 and no hash |
| `UserRepoPg.UsernameFilter` | internal/core/user/user_repo_pg.go:106-108 | the username condition disappears exactly when the username is empty |
| `UserRepoPg.GetByUsername` | internal/core/user/user_repo_pg.go:104-114 | a failure gives the zero user and a wrapped error; success gives the account fields of the row found and no plaintext password |
| `UserRepoPg.Get` | internal/core/user/user_repo_pg.go:116-129 | success iff the query succeeded with at least one row; a query error is wrapped; zero rows is "no users found"; success maps every row in order |
| `UserRepoPg.UpdateStatementFor` | internal/core/user/user_repo_pg.go:133-137 | the UPDATE writes exactly the username and email columns, with the input's values, for the input's id (no condition when the id is 0) |
| `UserRepoPg.Update` | internal/core/user/user_repo_pg.go:131-147 | a database error gives the zero user and that error; zero affected rows is "user not found"; success returns the caller's user unchanged, not the stored row |
| `EndToEnd.LoginTokenAdmitted` | internal/core/auth/auth_service.go:66-73 | with a signer whose tokens contain no spaces and a parser that accepts them while they are in force, the token of a successful login, sent as "Bearer <token>" within two hours of the login, is admitted by the middleware |
| `EndToEnd.LoginLookupsAreFiltered` | internal/core/auth/auth_service.go:42-52 | every lookup Login makes carries a username condition, so the Postgres repository never runs its unfiltered first-row query |

## Left out

- Password hashing (pkg/password/password.go) is bcrypt. Hashing and verification are parameters: `hash` in `UserService.Create` and `verify` in `AuthService.Login`. Their own properties are not part of this model, for example that a password verifies against its own hash.
- Signing and JWT parsing come from the golang-jwt library. They are the parameters `sign` and `parse`. Expiry checking and signature checking happen inside `parse`, which is given the clock reading `at` of the validation. That a token signed under one secret fails under another is a property of the library and is not modelled.
- Jwt.Validate: it is a method of `AuthToken` in the code, but reads only the secret. The model makes it a module-level function that takes the secret as a parameter.
- Jwt.Validate: the branch that returns `(false, nil)` is kept. Version 5 of the library reports an expired token as a parse error, so in practice that branch is reached only through the parser.
- Jwt.Creation: the source reads the clock twice, once for the issue time and once for the expiry. The model uses one reading `now`, in whole seconds. The two readings can straddle a second boundary, and the model does not capture that.
- Jwt.AuthToken.Create: `accessTokenExpiry` is stored but never read. The lifetime is the constant two hours, as in the code.
- Ids: `User.ID` is unsigned in Go and the row's `ID` is a signed int, with no conversion between them. The model uses one unbounded non-negative id. Go's 64-bit limits and the sign change are not modelled.
- The database (internal/postgres/pg_client.go and the gorm calls) is not part of this model. Each repository call takes the database's answer as a parameter. The query conditions and the columns read or written are modelled. The database's behaviour is not. For example, gorm refuses an UPDATE without a condition, and that refusal arrives only through the answer.
- HTTP: gin's binding, the JSON bodies of responses, URL-to-pattern matching, the handlers (internal/handler), `InitRouter`, `Run` and the default logger and recovery middleware of `gin.Default` are left out. `Router.Serve` takes the matched route pattern. The middleware's validator is a parameter, because the handler's `ValidateAccessToken` calls a service method that does not exist in the code.
- Configuration loading (internal/config), bootstrap (cmd) and logging (pkg/logger) are process I/O and are left out.
- Logging through Go's standard `log` package in auth_service.go, jwt.go and user_service.go is left out. No result depends on it.
- Concurrency: the service is stateless per request, and the model has no concurrency.
