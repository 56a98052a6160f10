# Authentication and authorisation core of golang-project-template, in Dafny

This project models the parts of the Go service template that make decisions,
and proves properties of them. The template has a modular monolith (`internal/`)
and an API gateway (`services/api-gateway/`). Both have registration and login,
JSON Web Tokens (HS256, section 3.2 of RFC 7518), a bearer-token gate in front of
the protected routes (section 2.1 of RFC 6750), and user and product handlers.
Around them sit pure helpers:

- field validators and an e-mail recogniser;
- pagination arithmetic;
- localised message tables with an English fallback;
- `Accept-Language` selection;
- environment-variable defaults.

Everything is modelled as pure functions over immutable datatypes:

- The user and product tables are sequences of rows. Their unique indexes are
  predicates.
- Collaborator failures (a database error, a hashing failure) are explicit
  `Option<GoError>` parameters.
- The password hasher is a pair of functions, constrained by the round-trip and
  mismatch laws (`Crypto.Sound`).
- A signed token is symbolic: `Jwt.Sign(key, alg, claims)` stands for the MAC.
  The compact serialisation is an abstract `Codec` whose only law is that
  decoding undoes encoding (`Jwt.Faithful`).
- `Jwt.Parse` follows the order of checks of the golang-jwt v5 parser:
  1. decode;
  2. the key function's HMAC pin;
  3. the signature;
  4. `exp` (strictly later than now);
  5. `nbf`.
- The clock (`now`, in seconds), UUIDs, salts, the environment, request headers
  and the request body are inputs.
- Gin's context is a pair of key/value stores, for the gin keys and the request
  context.
- An HTTP handler returns the response it writes, together with the argument
  it passed to the usecase, if it got that far (`call`). This makes ordering
  and short-circuiting statable.
- Go's `int` is 64 bits. Where the pagination arithmetic can leave that range it
  wraps explicitly (`Strconv.Wrap64`). Go's truncating `/` and `%` are
  `Pagination.GoDiv` and `Pagination.GoMod`.

Modules follow the source packages:

| module | source |
|---|---|
| `DomainError` | domain error sentinels and `CustomError` |
| `Messages` | error-message table of the monolith |
| `Validation` | validation messages and field validators |
| `Language` | language middleware and getters |
| `Config` | environment configuration |
| `Jwt` | library token model |
| `LibJwt` | shared token helpers |
| `PkgJwt` | monolith token helpers |
| `AuthService` | monolith auth service |
| `Crypto` | hasher |
| `SharedUser` | shared user entity, standing also for the monolith's user entity |
| `AuthUser` | monolith auth user entity |
| `UserStore` | user table |
| `Table` | generic row lookup |
| `AuthDto` | gateway request validation |
| `GatewayAuth` | gateway auth usecase |
| `InternalAuth` | monolith auth usecase |
| `Bearer` | bearer-token extraction |
| `GatewayAuthMiddleware` | gateway middleware |
| `AuthMiddleware` | monolith middleware |
| `Envelope` | response envelope |
| `UserUsecase` | monolith user usecase |
| `GatewayUser` | gateway user usecase |
| `Profile` | profile merge |
| `Pagination` | pagination |
| `ProductEntity` | product entity |
| `ProductUsecase` | product usecase |
| `ProductHandler` | product handler |
| `AuthHandler` | monolith auth handler |
| `UserHandler` | monolith user handler |

## Model

| member | source | states |
|---|---|---|
| DomainError.SentinelTextsDistinct | internal/shared/domain/error/error.go:7-14 | two sentinel errors have the same text exactly when they are the same sentinel |
| DomainError.Error | internal/shared/domain/error/error.go:24-29 | a custom error reads as its wrapped error's text whenever one is wrapped, and as its own message otherwise |
| DomainError.NewCustomError | internal/shared/domain/error/error.go:32-38 | code, message and wrapped error are stored unchanged |
| DomainError.WrappedSentinelHidesMessage | internal/shared/domain/error/error.go:24-27 | a custom error wrapping a sentinel reads as that sentinel, whatever its own message |
| Messages.GetErrorMessage | internal/shared/constants/error.go:109-120 | the requested language's text when the code has one, else the English text, else "unknown error" |
| Messages.GetError | internal/shared/constants/error.go:95-106 | the error's text is always exactly what `GetErrorMessage` returns for the same code and language |
| Messages.TableIsComplete | internal/shared/constants/error.go:34-92 | the table has an entry exactly for the thirteen declared codes, each with exactly the English and Indonesian texts |
| Messages.FallbackToEnglish | internal/shared/constants/error.go:109-120 | for a declared code every language but "id" reads the English text, and "unknown error" is never returned |
| Validation.GetValidationMessage | libs/errors/validation.go:57-68 | the requested-language template, else the English one, else "validation error" |
| Validation.DeclaredCodesHaveEnglish | libs/errors/validation.go:21-54 | every declared validation code has an English template, so it never reads the generic text and every language but "id" reads English |
| Validation.ByteLen | libs/errors/validation.go:89-96 | Go's `len` counts UTF-8 bytes, never fewer than the characters |
| Validation.AsciiByteLen | libs/errors/validation.go:89-96 | on ASCII text the byte length equals the character count |
| Validation.IsNotEmpty | libs/errors/validation.go:84-86 | holds exactly for non-empty strings |
| Validation.MinLength | libs/errors/validation.go:89-91 | holds exactly when the byte length is at least the minimum |
| Validation.MaxLength | libs/errors/validation.go:94-96 | holds exactly when the byte length is at most the maximum |
| Validation.IsValidEmail | libs/errors/validation.go:78-81 | an address it accepts splits as local@domain.tld with the pattern's character classes |
| Validation.IsValidEmailMatchesPattern | libs/errors/validation.go:78-81 | the first-'@' / last-'.' recogniser accepts exactly the language of the anchored pattern local@domain.tld |
| Validation.ValidEmailHasOneAt | libs/errors/validation.go:79 | an accepted address contains exactly one '@' |
| Strings.IndexOf | libs/errors/validation.go:78-81 | the first position of a character, or none when it does not occur |
| Strings.LastIndexOf | libs/errors/validation.go:78-81 | the last position of a character, or none when it does not occur |
| Strings.TrimPrefix | services/api-gateway/internal/middleware/auth.go:40 | removes one leading copy of the prefix when present, otherwise returns the input |
| Strings.Split | internal/features/user/usecase/user_usecase.go:94-99 | at least one piece and no piece contains the separator |
| Strings.JoinSplit | internal/features/user/usecase/user_usecase.go:94-99 | joining the pieces of a split with the separator gives back the input |
| Strconv.Wrap64 | libs/pagination/pagination.go:34 | two's-complement 64-bit wrap-around: in range, congruent to the input, and the identity on in-range values |
| Strconv.Atoi | libs/pagination/pagination.go:22-29 | succeeds exactly on an optional sign followed by one or more decimal digits whose value fits 64 bits, and then yields that value, negated after a '-' |
| Strconv.AtoiCanonical | libs/pagination/pagination.go:22-29 | an accepted text is the decimal rendering of its value up to a leading '+', the sign of zero and leading zeros |
| Strconv.FormatNatValue | libs/pagination/pagination.go:22-29 | the decimal rendering of a natural number reads back as that number |
| Strconv.AtoiItoa | libs/pagination/pagination.go:22-29 | parsing the decimal rendering of any 64-bit integer gives it back |
| Config.GetEnv | internal/core/config/config.go:61-66 | the variable's value when it is set and non-empty, else the fallback |
| Config.GetEnvAsInt | internal/core/config/config.go:69-76 | the parsed integer when the variable parses, else the fallback |
| Config.GetEnvAsBool | internal/core/config/config.go:79-86 | the parsed boolean when the variable parses, else the fallback |
| Config.GetEnvAsIntReadsItoa | internal/core/config/config.go:69-76 | a variable holding the rendering of an integer reads as that integer |
| Config.GetEnvAsBoolSpellings | internal/core/config/config.go:79-86 | the six true and six false spellings are recognised, and "yes" falls back |
| Config.Load | internal/core/config/config.go:37-58 | loading never fails, and the secret, port and database name are the variable or its default, with a non-empty secret |
| Config.SecretDefault | internal/core/config/config.go:53 | the JWT secret is "your-secret-key" exactly when the variable is unset or empty |
| Language.SelectLang | internal/shared/delivery/http/middleware/language.go:16-23 | Indonesian exactly for the header values "id" and "ID", English for every other value |
| Language.LanguageMiddleware | internal/shared/delivery/http/middleware/language.go:13-34 | the same language is stored under the gin key and the request-context key, and nothing else changes |
| Language.GetLangFromContext | internal/shared/delivery/http/middleware/language.go:37-42 | the stored language, or English when the key is missing or holds another type |
| Language.GetLangFromGin | internal/shared/delivery/http/middleware/language.go:45-52 | the stored language, or English when the key is missing or holds another type |
| Language.MiddlewareThenGetters | libs/httputil/middleware/language.go:13-52 | after the middleware both getters return the language the header selects |
| Language.SelectionIsExact | libs/httputil/middleware/language.go:16-23 | "Id", "iD", "id-ID", weighted lists, "" and "en" all select English |
| Language.UntypedValueReadsEnglish | libs/httputil/middleware/language.go:37-42 | a plain string "id" under the key is the wrong type and reads as English |
| Jwt.SignHS256 | libs/jwt/jwt.go:43-44 | the token carries HS256 and exactly the given claims |
| Jwt.Parse | libs/jwt/jwt.go:48-66 | succeeds exactly for a decodable HMAC token with a valid signature under the key and claims in their time window, and returns its claims; a non-HMAC algorithm is refused by the key function |
| Jwt.IssueParseRoundTrip | libs/jwt/jwt.go:31-66 | a token signed with a key parses under that key, inside its window, to the claims it was signed with |
| Jwt.WrongKeyRejected | libs/jwt/jwt.go:48-66 | a token signed with another key fails with an invalid signature |
| Jwt.ExpiredRejected | libs/jwt/jwt.go:48-66 | at or after its expiry a token is refused as expired |
| Jwt.NonHmacRejected | libs/jwt/jwt.go:51-54 | a token whose algorithm is not HMAC is refused before any signature check |
| LibJwt.ClaimsFor | libs/jwt/jwt.go:32-40 | identity copied from the payload, issued-at and not-before now, expiry now plus the lifetime |
| LibJwt.GenerateTokenWithExpiry | libs/jwt/jwt.go:31-45 | the token is non-empty and decodes to an HS256 token signed with the secret over those claims |
| LibJwt.GenerateToken | libs/jwt/jwt.go:26-28 | the token expires one day after issue |
| LibJwt.ValidateToken | libs/jwt/jwt.go:48-66 | succeeds exactly when the token decodes, names an HMAC algorithm, carries the signature of its claims under the secret, and is inside its time window, and then returns the decoded claims; an undecodable token is malformed and a non-HMAC one unverifiable |
| LibJwt.GenerateValidateRoundTrip | libs/jwt/jwt.go:26-66 | within the lifetime, validating with the issuing secret returns the issued identity |
| LibJwt.DefaultLifetime | libs/jwt/jwt.go:26-28 | a default token validates for exactly the following 24 hours |
| LibJwt.WrongSecretRejected | libs/jwt/jwt.go:48-66 | validating with another secret fails with an invalid signature |
| LibJwt.NonPositiveExpiryRejected | libs/jwt/jwt.go:36-40 | a token with a non-positive lifetime is already expired when issued |
| PkgJwt.GenerateTokenWithExpiry | pkg/jwt/jwt.go:32-46 | signed with the configured secret over claims with the given lifetime |
| PkgJwt.GenerateToken | pkg/jwt/jwt.go:27-29 | the token expires one day after issue |
| PkgJwt.ValidateToken | pkg/jwt/jwt.go:49-68 | succeeds exactly when the token decodes, names an HMAC algorithm, carries the signature of its claims under the caller's secret, and is inside its time window, and then returns the decoded claims; an undecodable token is malformed and a non-HMAC one unverifiable |
| PkgJwt.ValidateGeneratedWithConfiguredSecret | pkg/jwt/jwt_test.go:46-63 | validating with the configured secret returns the issued user id, e-mail and username |
| PkgJwt.WrongSecretRejected | pkg/jwt/jwt_test.go:75-90 | validating with any other secret fails |
| PkgJwt.ExpiredTokenRejected | pkg/jwt/jwt_test.go:92-108 | a token issued with a negative lifetime fails as expired |
| PkgJwt.UndecodableRejected | pkg/jwt/jwt_test.go:65-73 | a string that does not decode as a token is refused as malformed |
| Crypto.HashPassword | pkg/crypto/password.go:11-22 | fails exactly on a fault; a sound hasher's hash differs from the password and verifies against it |
| Crypto.VerifyPassword | pkg/crypto/password.go:25-27 | no error exactly when the hash verifies against the password |
| Crypto.HashThenVerify | pkg/crypto/password_test.go:41-60 | a fresh hash verifies against its password and against no other |
| AuthService.ClaimsFor | internal/features/auth/infrastructure/service/auth_service_impl.go:36-46 | claims carry the user's id, UUID, e-mail and username, issued-at and not-before now, expiry a day later |
| AuthService.GenerateToken | internal/features/auth/infrastructure/service/auth_service_impl.go:35-50 | a non-empty HS256 token signed with the service secret over those claims |
| AuthService.UserFromClaims | internal/features/auth/infrastructure/service/auth_service_impl.go:72-76 | only id, e-mail and username are restored; the UUID stays empty |
| AuthService.ValidateToken | internal/features/auth/infrastructure/service/auth_service_impl.go:53-79 | succeeds exactly when the token parses under the service secret, refuses non-HMAC algorithms, and returns the user built from the claims |
| AuthService.GenerateValidateDropsUuid | internal/features/auth/infrastructure/service/auth_service_impl.go:35-79 | within a day a generated token validates back to the user's id, e-mail and username, with an empty UUID |
| AuthService.HashPassword | internal/features/auth/infrastructure/service/auth_service_impl.go:82-88 | on failure the hash is empty and the error is passed on; otherwise the hash verifies against the password |
| AuthService.VerifyPassword | internal/features/auth/infrastructure/service/auth_service_impl.go:91-93 | no error exactly when the hash verifies against the password |
| SharedUser.NewUser | libs/domain/entity/user.go:30-40 | all five string fields copied, a fresh non-empty id, active |
| SharedUser.BeforeCreate | libs/domain/entity/user.go:43-48 | assigns an id only when it is empty, and changes nothing else |
| SharedUser.BeforeCreateIdempotent | libs/domain/entity/user.go:43-48 | running the hook twice is the same as running it once |
| SharedUser.NewUserSurvivesHook | libs/domain/entity/user.go:30-48 | a user built by `NewUser` passes through the hook unchanged |
| SharedUser.Stripped | services/api-gateway/internal/features/auth/usecase/auth_usecase.go:80 | the password is cleared and nothing else changes |
| AuthUser.NewUser | internal/features/auth/domain/entity/user.go:27-39 | request fields and plaintext password copied, active, numeric id zero, fresh UUID, both timestamps now |
| AuthUser.NextId | internal/features/auth/domain/entity/user.go:13 | the auto-increment id is positive and above every id in the table |
| AuthUser.Create | internal/features/auth/domain/entity/user.go:13-16 | inserting succeeds exactly without a fault and with a free UUID, e-mail and username, and appends the row with the next id |
| AuthUser.CreatePreservesUnique | internal/features/auth/domain/entity/user.go:13-16 | an insert keeps the id, UUID, e-mail and username indexes unique |
| Table.FirstWhere | libs/domain/repository/user_repository.go:12-14 | the first row satisfying the predicate, or none when no row does |
| Table.Lookup | libs/domain/repository/user_repository.go:12-14 | a fault is reported as it is; otherwise a row with that column value, failing exactly when none exists, and the only such row when the column is unique |
| UserStore.GetByID | internal/shared/infrastructure/repository/user_repository_impl.go:31-39 | a fault is returned as it is; otherwise it succeeds exactly when some row has the id, returns a row with that id, and under the unique index returns that row |
| UserStore.GetByEmail | internal/shared/infrastructure/repository/user_repository_impl.go:41-49 | a fault is returned as it is; otherwise it succeeds exactly when some row has the e-mail, returns a row with that e-mail, and under the unique index returns that row |
| UserStore.GetByUsername | internal/shared/infrastructure/repository/user_repository_impl.go:51-58 | a fault is returned as it is; otherwise it succeeds exactly when some row has the username, returns a row with that username, and under the unique index returns that row |
| Table.LookupAppended | libs/domain/repository/user_repository.go:12-14 | a row appended with a value not yet in the table is what a lookup of that value finds |
| Table.AppendKeepsUnique | libs/domain/entity/user.go:13-14 | appending a row with a fresh key keeps that column unique |
| UserStore.Create | libs/domain/entity/user.go:12-14 | inserting runs the id hook first, and succeeds exactly without a fault and with a free id, e-mail and username |
| UserStore.CreatePreservesUnique | libs/domain/entity/user.go:12-14 | an insert keeps the id, e-mail and username indexes unique |
| UserStore.Update | internal/features/user/usecase/user_usecase.go:71-76 | an update fails exactly on a fault, and otherwise replaces the rows with that id and nothing else |
| UserStore.UpdateThenGetByID | internal/features/user/usecase/user_usecase.go:71-76 | after an update, looking the id up returns the updated user |
| UserStore.UpdatePreservesUnique | internal/features/user/usecase/user_usecase.go:63-76 | an update that keeps e-mail and username keeps the unique indexes |
| AuthDto.EmailErrors | services/api-gateway/internal/features/auth/delivery/http/dto/auth_dto.go:23-27 | at most one message: "required" when empty, else "invalid email format" when not an address, none exactly for a valid address |
| AuthDto.UsernameErrors | services/api-gateway/internal/features/auth/delivery/http/dto/auth_dto.go:30-39 | at most one message; none exactly for 3 to 20 bytes; "required" when empty |
| AuthDto.PasswordErrors | services/api-gateway/internal/features/auth/delivery/http/dto/auth_dto.go:42-46 | at most one message; none exactly for 6 or more bytes; "required" when empty |
| AuthDto.RequiredErrors | services/api-gateway/internal/features/auth/delivery/http/dto/auth_dto.go:49-56 | "required" exactly when the value is empty |
| AuthDto.ValidateRegister | services/api-gateway/internal/features/auth/delivery/http/dto/auth_dto.go:19-59 | keys among the five field names, one message per key, and each key present exactly when its field breaks its rule |
| AuthDto.ValidateRegisterAcceptsExactlyValid | services/api-gateway/internal/features/auth/delivery/http/dto/auth_dto.go:19-59 | no errors exactly when the request satisfies every field rule |
| AuthDto.RegisterMessages | services/api-gateway/internal/features/auth/delivery/http/dto/auth_dto.go:23-56 | the message under each key is the one that field's rule produces |
| AuthDto.ValidateLogin | services/api-gateway/internal/features/auth/delivery/http/dto/auth_dto.go:68-84 | e-mail rules as for registration; the password only has to be non-empty |
| AuthDto.LoginHasNoLengthRule | services/api-gateway/internal/features/auth/delivery/http/dto/auth_dto.go:77-81 | a valid address with any non-empty password, however short, passes |
| AuthDto.ValidateUpdateProfile | services/api-gateway/internal/features/user/delivery/http/dto/user_dto.go:14-24 | no errors when either name is given; otherwise exactly the two name keys, each with the raw "required" template |
| GatewayAuth.Register | services/api-gateway/internal/features/auth/usecase/auth_usecase.go:46-82 | any non-201 outcome leaves the table unchanged with no user; 201 returns a user without password; errors are in the request language; the e-mail lookup is always first, and an insert only follows both lookups and the hash |
| GatewayAuth.Login | services/api-gateway/internal/features/auth/usecase/auth_usecase.go:85-119 | 200 exactly when there is a response; every failure is 401 InvalidCredentials; success clears the password after lookup, verify and token |
| GatewayAuth.EmailCheckedFirst | services/api-gateway/internal/features/auth/usecase/auth_usecase.go:49-54 | a registered e-mail gives 400 UserAlreadyExists after the one lookup, with the table unchanged |
| GatewayAuth.UsernameTakenStopsRegistration | services/api-gateway/internal/features/auth/usecase/auth_usecase.go:56-61 | a free e-mail with a taken username gives 400 UsernameAlreadyTaken after exactly the two lookups, with the table unchanged |
| GatewayAuth.LookupErrorsIgnored | services/api-gateway/internal/features/auth/usecase/auth_usecase.go:49-61 | failing lookups give the same outcome as lookups that found nobody |
| GatewayAuth.HashFailureStopsBeforeCreate | services/api-gateway/internal/features/auth/usecase/auth_usecase.go:63-68 | a hashing failure gives 500 FailedToHashPassword, no user and no insert |
| GatewayAuth.CreateFailureLeavesTable | services/api-gateway/internal/features/auth/usecase/auth_usecase.go:73-77 | an insert failure gives 500 FailedToCreateUser, no user, the table unchanged |
| GatewayAuth.RegisterStoresHash | services/api-gateway/internal/features/auth/usecase/auth_usecase.go:63-81 | success appends exactly one row with the request's fields and a hash that verifies against the password and is not the plaintext; the returned user is that row without password |
| GatewayAuth.RegisterPreservesUnique | services/api-gateway/internal/features/auth/usecase/auth_usecase.go:46-82 | registration keeps the unique indexes |
| GatewayAuth.LoginFailuresIndistinguishable | services/api-gateway/internal/features/auth/usecase/auth_usecase.go:88-99 | an unknown e-mail and a wrong password give the same status and error |
| GatewayAuth.LoginIssuesTokenForUser | services/api-gateway/internal/features/auth/usecase/auth_usecase.go:101-118 | success means the password verified, the returned user is the stored one without password, and the token validates for a day to that user's identity |
| GatewayAuth.RegisterThenLogin | services/api-gateway/internal/features/auth/usecase/auth_usecase.go:46-119 | right after registering, logging in with the same e-mail and password succeeds with a token naming the new account |
| InternalAuth.Register | internal/features/auth/usecase/auth_usecase.go:40-70 | a user exactly when there is no error; any error leaves the table unchanged; the returned user has no password; lookup and insert ordering as in the gateway |
| InternalAuth.Login | internal/features/auth/usecase/auth_usecase.go:73-98 | a response exactly when there is no error; errors are the bad-credentials error or a 500 wrapping the token fault; success clears the password after lookup, verify and token |
| InternalAuth.EmailCollisionFirst | internal/features/auth/usecase/auth_usecase.go:41-45 | an e-mail collision gives 400 "user already exists" wrapping the sentinel, after one lookup |
| InternalAuth.UsernameCollisionReadsAsUserExists | internal/features/auth/usecase/auth_usecase.go:47-50 | a username collision has message "username already taken" but its error text reads "user already exists" |
| InternalAuth.HashFailureSkipsCreate | internal/features/auth/usecase/auth_usecase.go:52-56 | a hash failure gives 500 wrapping it, with no insert |
| InternalAuth.CreateFailureReported | internal/features/auth/usecase/auth_usecase.go:62-65 | an insert failure gives 500 wrapping it, with no user |
| InternalAuth.RegisterPersistsHash | internal/features/auth/usecase/auth_usecase.go:58-69 | the stored row is built from the request with the hash in place of the plaintext, the next id and the fresh UUID; the returned user is that row without password |
| InternalAuth.RegisterPreservesUnique | internal/features/auth/usecase/auth_usecase.go:40-70 | registration keeps the unique indexes |
| InternalAuth.LoginFailuresIdentical | internal/features/auth/usecase/auth_usecase.go:74-83 | unknown e-mail and wrong password give the identical error |
| InternalAuth.TokenFailureReported | internal/features/auth/usecase/auth_usecase.go:85-89 | a token failure gives 500 wrapping it |
| InternalAuth.RegisterThenLogin | internal/features/auth/usecase/auth_usecase.go:40-98 | right after registering, login succeeds and its token validates to the new row's id, e-mail and username |
| Bearer.ExtractToken | services/api-gateway/internal/middleware/auth.go:24-45 | a token exactly when the header is the exact prefix "Bearer " followed by a non-empty remainder |
| Bearer.ExtractTokenExactly | services/api-gateway/internal/middleware/auth.go:33-45 | the token is t exactly when the header is "Bearer " + t with t non-empty |
| Bearer.SchemeIsCaseSensitive | services/api-gateway/internal/middleware/auth.go:33-37 | "bearer ", "BEARER " and a tab instead of the space are all refused |
| Bearer.OnePrefixRemoved | services/api-gateway/internal/middleware/auth.go:40 | only one space after the scheme is removed; a second one stays in the token |
| GatewayAuthMiddleware.WithIdentity | services/api-gateway/internal/middleware/auth.go:56-58 | the three identity keys hold the claims' id, e-mail and username, and nothing else changes |
| GatewayAuthMiddleware.AuthMiddleware | services/api-gateway/internal/middleware/auth.go:21-62 | every failure is the same 401 Unauthorized abort; it continues exactly when a token is extracted and validates, with the identity keys set |
| GatewayAuthMiddleware.GeneratedTokenAdmitted | services/api-gateway/internal/middleware/auth.go:21-62 | within a day, a token the secret issued is admitted with its identity attached |
| GatewayAuthMiddleware.GeneratedTokenRefused | services/api-gateway/internal/middleware/auth.go:48-53 | another secret or an expired token gives the 401 abort |
| GatewayAuthMiddleware.LowerCaseSchemeRefused | services/api-gateway/internal/middleware/auth.go:33-37 | a lower-case scheme is refused even with a valid token |
| AuthMiddleware.AuthMiddleware | internal/shared/delivery/http/middleware/auth.go:19-57 | every failure is the same localised 401 abort; it continues exactly when a token is extracted and validates under the configured secret, storing the claims under "sess" |
| AuthMiddleware.GeneratedTokenAdmitted | internal/shared/delivery/http/middleware/auth.go:46-55 | within a day, a token issued with the configured secret is admitted with its claims stored |
| AuthMiddleware.ForeignSecretRefused | internal/shared/delivery/http/middleware/auth.go:46-51 | a token issued under another configuration's secret is refused |
| AuthMiddleware.MissingHeaderLocalised | internal/shared/delivery/http/middleware/auth.go:24-29 | a missing header aborts with "tidak memiliki akses" for "id" and "unauthorized" otherwise |
| Envelope.NewResponse | libs/httputil/response/response.go:17-27 | an error envelope exactly when the status is 400 or above, with status, data, message and errors as given |
| Envelope.Relay | internal/features/user/delivery/http/handler/user_handler.go:56-62 | the usecase's status is echoed; on error the message is the error text and there is no data; otherwise the data and the success message |
| UserUsecase.GetProfile | internal/features/user/usecase/user_usecase.go:39-50 | 200 exactly when the user exists and the lookup succeeds, with that user's response; otherwise 404 UserNotFound |
| UserUsecase.UpdateProfile | internal/features/user/usecase/user_usecase.go:53-83 | a lookup failure gives 404 and an update failure 500, both with the table unchanged; success stores the merged user under the caller's id |
| UserUsecase.UpdateThenGetProfile | internal/features/user/usecase/user_usecase.go:39-83 | after a successful update, the profile read back is the merged user |
| UserUsecase.UpdateProfilePreservesUnique | internal/features/user/usecase/user_usecase.go:53-83 | a profile update keeps the unique indexes |
| UserUsecase.ListParam | internal/features/user/usecase/user_usecase.go:94-99 | empty exactly for an empty parameter; otherwise comma-free pieces that join back to the parameter |
| UserUsecase.BuildFilter | internal/features/user/usecase/user_usecase.go:100-116 | each filter field is the query parameter of the same name, the lists are split, and per-page and offset come from the paginator |
| UserUsecase.ListPage | internal/features/user/usecase/user_usecase.go:117-141 | panics exactly when the list succeeds and per-page is zero; a list failure gives 500 with an empty pagination; success gives one response per user in order and the page count of the total |
| UserUsecase.GetUsers | internal/features/user/usecase/user_usecase.go:86-141 | lists with the filter built from the query and the unclamped page; a list failure gives 500 FailedToGetUsers with an empty pagination; a successful answer converts every user in order and echoes per-page and page with the total and its page count; it panics exactly when the list succeeds and per_page parses as 0 |
| UserUsecase.ZeroPerPageRequestPanics | internal/features/user/usecase/user_usecase.go:90-132 | per_page "0" with a successful list divides by zero |
| UserUsecase.GetUsersClamped | internal/features/user/usecase/user_usecase.go:86-141 | with per-page clamped the listing always answers, and a successful page has per-page at least one |
| UserUsecase.ClampedPagesCoverTotal | libs/pagination/pagination.go:44-50 | with per-page clamped the page count times per-page covers the total and one page fewer does not |
| GatewayUser.GetProfile | services/api-gateway/internal/features/user/usecase/user_usecase.go:37-49 | 200 exactly when the user is found, returned without password; otherwise 404 UserNotFound |
| GatewayUser.UpdateProfile | services/api-gateway/internal/features/user/usecase/user_usecase.go:52-78 | 404 when not found and 500 when the update fails, both with the table unchanged; success stores the merged user with its hash and returns it without password |
| GatewayUser.UpdateThenGetProfile | services/api-gateway/internal/features/user/usecase/user_usecase.go:37-78 | after a successful update, the profile read back is the returned user |
| GatewayUser.GetUsers | services/api-gateway/internal/features/user/usecase/user_usecase.go:81-96 | 200 exactly when the list succeeds, with the same users in the same order and every password cleared; otherwise 500 FailedToGetUsers |
| Profile.ApplyUpdate | internal/features/user/usecase/user_usecase.go:63-68 | only the first and last names change, each only when the request gives a non-empty value |
| Profile.ApplyUpdateIdempotent | services/api-gateway/internal/features/user/usecase/user_usecase.go:62-67 | applying the same update twice is the same as once |
| Profile.ValidatorAgreesWithUpdate | services/api-gateway/internal/features/user/delivery/http/dto/user_dto.go:14-24 | a request the validator refuses would change nothing |
| Pagination.GoDiv | libs/pagination/pagination.go:45 | Go's truncating quotient, equal to Euclidean division for a non-negative dividend and positive divisor |
| Pagination.GoMod | libs/pagination/pagination.go:46 | Go's remainder takes the sign of the dividend |
| Pagination.NegativeDividendTruncates | libs/pagination/pagination.go:45-46 | -7/2 is -3 with remainder -1, and 7/-2 is -3 with remainder 1 |
| Pagination.PaginationBuilder | libs/pagination/pagination.go:21-42 | per-page is the parsed value or 10, unclamped; page is the parsed value or 1, at least 1 |
| Pagination.TotalPage | libs/pagination/pagination.go:44-50 | panics exactly when per-page is zero |
| Pagination.TotalPageIsCeiling | libs/pagination/pagination.go:44-50 | for positive per-page and a non-negative total, the page count is the ceiling of total over per-page |
| Pagination.EmptyListHasNoPages | libs/pagination/pagination.go:44-50 | no rows means zero pages |
| Pagination.OffsetsAreConsecutive | libs/pagination/pagination.go:34 | the offset is (page-1)*per-page, and the next page starts per-page rows later |
| Pagination.ZeroPerPagePanics | libs/pagination/pagination.go:21-50 | per_page "0" passes through and the page count then divides by zero |
| Pagination.ClampedPaginationBuilder | libs/pagination/pagination.go:21-42 | per-page of at least 1, the parsed value when positive and 10 otherwise, with the same page |
| Pagination.ClampedNeverPanics | libs/pagination/pagination.go:44-50 | the page count never divides by zero after clamping |
| ProductEntity.NewProduct | internal/features/product/domain/entity/product.go:25-37 | fields copied, fresh id, active, both timestamps now |
| ProductEntity.NoRangeChecks | internal/features/product/domain/entity/product.go:28-32 | negative price and stock are accepted as they are |
| ProductUsecase.CreateProduct | internal/features/product/usecase/product_usecase.go:53-63 | fails exactly on a fault, with 500; otherwise appends and returns the new product |
| ProductUsecase.GetProduct | internal/features/product/usecase/product_usecase.go:66-73 | the product with that id when the lookup succeeds, otherwise 404 "product not found" |
| ProductUsecase.CreateThenGet | internal/features/product/usecase/product_usecase.go:53-73 | a created product is found by its id |
| ProductUsecase.Save | internal/features/product/usecase/product_usecase.go:102-105 | replaces the row with that id and nothing else |
| ProductUsecase.SaveThenGet | internal/features/product/usecase/product_usecase.go:66-105 | a saved product is found as saved |
| ProductUsecase.ApplyUpdate | internal/features/product/usecase/product_usecase.go:82-100 | texts overwritten only when non-empty, price and stock whenever not negative, active flag only when given; the id never changes |
| ProductUsecase.RenameResetsPriceAndStock | internal/features/product/usecase/product_usecase.go:89-94 | a rename-only request sets price and stock to zero |
| ProductUsecase.UpdateWith | internal/features/product/usecase/product_usecase.go:76-108 | not found gives 404 and a save failure 500; success saves the merged product with the update time |
| ProductUsecase.UpdateProduct | internal/features/product/usecase/product_usecase.go:76-108 | succeeds exactly when found and saved, storing the as-written merge |
| ProductUsecase.UpdateThenGet | internal/features/product/usecase/product_usecase.go:66-108 | after an update, the product read back is the updated one |
| ProductUsecase.ApplyPatch | internal/features/product/usecase/product_usecase.go:82-100 | fields the patch does not give keep their values, and the id never changes |
| ProductUsecase.PatchRenameKeepsEverythingElse | internal/features/product/usecase/product_usecase.go:83-85 | a rename-only patch changes only the name |
| ProductUsecase.PatchAgreesWhenNumbersGiven | internal/features/product/usecase/product_usecase.go:89-94 | when price and stock are given, the patch merge agrees with the as-written merge |
| ProductUsecase.UpdateProductPatched | internal/features/product/usecase/product_usecase.go:76-108 | the update with the corrected merge succeeds in the same cases and stores the patched product |
| ProductUsecase.Without | internal/features/product/usecase/product_usecase.go:117-121 | exactly the rows with a different id remain |
| ProductUsecase.DeleteProduct | internal/features/product/usecase/product_usecase.go:111-124 | not found gives 404 with no delete, a delete failure 500, success removes that id |
| ProductUsecase.DeleteThenGet | internal/features/product/usecase/product_usecase.go:111-124 | after a delete the product is not found, and deleting again gives 404 |
| ProductUsecase.ListWith | internal/features/product/usecase/product_usecase.go:127-154 | a list result passes through; a failure becomes 500 with the given message wrapping it |
| ProductUsecase.GetProducts | internal/features/product/usecase/product_usecase.go:127-134 | the listing, or 500 "failed to get products" |
| ProductUsecase.GetProductsByCategory | internal/features/product/usecase/product_usecase.go:137-144 | the category listing, or 500 with its own message |
| ProductUsecase.SearchProducts | internal/features/product/usecase/product_usecase.go:147-154 | the search listing, or 500 with its own message |
| ProductHandler.NormalizeLimit | internal/features/product/delivery/http/handler/product_handler.go:189-192 | at least 1: the parsed value when positive, else 10 |
| ProductHandler.NormalizeOffset | internal/features/product/delivery/http/handler/product_handler.go:194-197 | at least 0: the parsed value when not negative, else 0 |
| ProductHandler.NormalizeRoundTrip | internal/features/product/delivery/http/handler/product_handler.go:189-197 | valid values render and read back unchanged, and normalising is idempotent |
| ProductHandler.RespondError | internal/features/product/delivery/http/handler/product_handler.go:51-57 | a custom error is answered with its own code and message, any other error with 500 and the fallback |
| ProductHandler.Respond | internal/features/product/delivery/http/handler/product_handler.go:51-60 | success answers the data with the given status, failure as `RespondError` |
| ProductHandler.CreateProduct | internal/features/product/delivery/http/handler/product_handler.go:37-61 | a bind failure gives 400 without calling the usecase; otherwise 201 or the mapped error |
| ProductHandler.GetProduct | internal/features/product/delivery/http/handler/product_handler.go:75-93 | an empty id gives 400 and no call; otherwise the usecase's answer |
| ProductHandler.UpdateProduct | internal/features/product/delivery/http/handler/product_handler.go:108-139 | the id is checked before binding; the usecase is called exactly with a non-empty id and a bound body |
| ProductHandler.DeleteProduct | internal/features/product/delivery/http/handler/product_handler.go:153-171 | an empty id gives 400 and no call; otherwise the mapped error or "Product deleted successfully" |
| ProductHandler.GetProducts | internal/features/product/delivery/http/handler/product_handler.go:185-210 | the usecase always gets a limit of at least 1 and an offset of at least 0, the normalised parameters |
| ProductHandler.GetProductsByCategory | internal/features/product/delivery/http/handler/product_handler.go:225-256 | an empty category gives 400 and no call; otherwise the normalised call |
| ProductHandler.SearchProducts | internal/features/product/delivery/http/handler/product_handler.go:271-302 | an empty query gives 400 and no call; otherwise the normalised call |
| ProductHandler.Lift | internal/features/product/delivery/http/handler/product_handler.go:51-52 | a usecase error is a custom error |
| ProductHandler.LiftError | internal/features/product/delivery/http/handler/product_handler.go:160-165 | a delete error is a custom error |
| ProductHandler.MissingProductAnswered404 | internal/features/product/delivery/http/handler/product_handler.go:82-90 | asking for an unknown product is answered 404 "product not found" |
| ProductHandler.ListFailureAnswered | internal/features/product/delivery/http/handler/product_handler.go:199-205 | a list failure is answered 500 with the usecase's message |
| ProductHandler.DeleteTwice | internal/features/product/delivery/http/handler/product_handler.go:153-171 | deleting a product succeeds and deleting it again is answered 404 |
| AuthHandler.Rejected | internal/features/auth/delivery/http/handler/auth_handler.go:41-52 | 400 error envelope with the given errors and "validation failed" in the request language |
| AuthHandler.BodyErrors | internal/features/auth/delivery/http/handler/auth_handler.go:41-46 | the bind error under the single key "body" |
| AuthHandler.Register | internal/features/auth/delivery/http/handler/auth_handler.go:37-61 | the usecase is called exactly when the body binds and validates; bind and validation failures give 400; the usecase's reply is relayed |
| AuthHandler.Login | internal/features/auth/delivery/http/handler/auth_handler.go:75-99 | the same bind, validate, usecase order, with the login rules |
| AuthHandler.MissingEmailRefused | internal/features/auth/delivery/http/handler/auth_handler.go:49-52 | a registration without e-mail that reaches validation is refused with "validasi gagal" for an Indonesian request, the gateway validator's "required" message under "email", and no call |
| AuthHandler.MissingEmailRejectedAtBinding | internal/features/auth/delivery/http/dto/auth_dto.go:4-8 | under the monolith's `required,email` tag a missing e-mail fails at binding: "validasi gagal", the binder's text under "body" only, and no call |
| AuthHandler.LoginStatusEchoed | internal/features/auth/delivery/http/handler/auth_handler.go:54-60 | the usecase's status and data are what the client gets |
| UserHandler.Principal | internal/features/user/delivery/http/handler/user_handler.go:44-54 | a principal exactly when "sess" holds claims |
| UserHandler.Unauthorized | internal/features/user/delivery/http/handler/user_handler.go:44-54 | a 401 error envelope with no data |
| UserHandler.Rejected | internal/features/user/delivery/http/handler/user_handler.go:97-108 | a 400 error envelope with the given errors |
| UserHandler.GetProfile | internal/features/user/delivery/http/handler/user_handler.go:40-63 | the usecase is called exactly with a principal, with its user id; its reply is relayed |
| UserHandler.UpdateProfile | internal/features/user/delivery/http/handler/user_handler.go:80-117 | principal, then bind, then validate; the usecase is called only when all pass |
| UserHandler.GetUsers | internal/features/user/delivery/http/handler/user_handler.go:145-171 | a query bind error gives 400; otherwise the usecase's listing is answered, and a panicking listing crashes the handler |
| UserHandler.PrincipalCheckedBeforeBinding | internal/features/user/delivery/http/handler/user_handler.go:84-97 | without a session even an unreadable body is answered 401 |
| UserHandler.ForeignSessionRefused | internal/features/user/delivery/http/handler/user_handler.go:50-54 | a "sess" value that is not claims is answered 401 with no call |
| UserHandler.MiddlewareThenGetProfile | internal/features/user/delivery/http/handler/user_handler.go:40-63 | behind the middleware, a fresh token leads the handler to call the usecase with the token's user id |
| UserHandler.ZeroPerPageCrashesListing | internal/features/user/delivery/http/handler/user_handler.go:145-171 | per_page "0" makes the listing handler panic, and the status served after the router's `gin.Recovery()` middleware is 500 instead of a page |

## Left out

- Password hashing internals (bcrypt cost, salt format, the 72-byte limit) are
  not modelled. The hasher is abstract; its failure is a fault parameter.
- The golang-jwt internals are not modelled: base64url, the JSON encoding of
  claims, and the HMAC computation. Signatures are symbolic, so
  `Jwt.WrongKeyRejected` holds without a collision argument.
- The wall clock, `uuid.New()`, the environment, request headers, body binding
  and the gin context are inputs. Tag-driven binding validation (`binding:"…"`)
  is a `Result` the handler receives.
- Persistence (GORM, SQL, soft delete, timestamps written by the database) is
  not modelled. Tables are sequences with explicit fault parameters, and the
  unique indexes are enforced on insert. The repository of the product and the
  monolith's user repository are not part of this model beyond the behaviour
  the usecases rely on.
- Logging, routing, module wiring, `main` and graceful shutdown are not modelled.
- `fmt.Sprintf` rendering is not modelled. Validation messages are structured
  (template, argument) values.
- Floating point is not modelled: a product's `float64` price is a `real`, and
  the database's `decimal(10,2)` rounding is not modelled.
- Config.Load: the source declares `Load` as returning a configuration and an
  error, while the token helpers and middleware use it as a single value. The
  model follows the declared signature, never fails, and reads only the JWT
  secret, server port and database name.
- AuthHandler.Register and AuthHandler.Login: the monolith's auth handler
  expects a usecase returning a status, while the usecase shown returns only a
  value and an error. Its DTOs have no `Validate` method. The handlers are
  modelled with the gateway's validators and a status-returning usecase
  parameter.
- Envelope.NewResponse: the monolith's response package has no `NewResponse`,
  so the handlers use the shared library's envelope.
- GatewayAuth.Register and GatewayAuth.Login: the gateway's error-message table
  is not part of this model. Gateway errors are the symbolic pair (code,
  language).
- UserUsecase.GetProfile and UserUsecase.UpdateProfile: the user-to-response
  conversion is not part of this model. It is the parameter `toResponse`.
- SharedUser: the monolith's own user entity (internal/shared/domain/entity,
  apart from its filter) is not part of this model. The monolith's user
  usecase and repository are modelled over `SharedUser`, the shared library's
  entity (libs/domain/entity/user.go), in its place.
- UserStore.Update: GORM's `Updates` with a struct skips zero-valued fields,
  while the model replaces the whole row. The two agree at the only call site,
  because the merged user there equals the stored row except for the names,
  and only non-empty names are merged in.
- UserUsecase.GetUsers: the monolith's own pagination package is not part of
  this model. It is assumed to behave as the shared library's
  `PaginationBuilder` and `TotalPage`.
- GatewayAuth.Login: token generation signs with a byte key and cannot fail, so
  the 500 FailedToGenerateToken branch is not modelled.
- UserHandler.UpdateProfile: the handler calls `req.Validate(lang)`, but the
  monolith's `UpdateProfileRequest` (internal/features/user/delivery/http/dto/user_dto.go)
  declares no `Validate` method, so that package does not compile as shown. The
  model validates with the gateway's rule for the same request,
  `AuthDto.ValidateUpdateProfile`.
- AuthUser.NextId: the auto-increment key is modelled as one above the largest
  id in the table. A database sequence also consumes values on failed inserts
  and after deletions, so real ids can have gaps and need not be max+1; the
  model promises only that the new id is positive and unused.
- GatewayAuthMiddleware.AuthMiddleware: the gin context's `Next` and `Abort`
  are the two constructors of `Gate`. The handlers behind it are not run.

## Findings

| source | as written | input that shows it | evidently intended | confidence | as-written member | corrected member |
|---|---|---|---|---|---|---|
| libs/pagination/pagination.go:21-50 with internal/features/user/usecase/user_usecase.go:90,132 | per_page is parsed but not clamped, and `TotalPage` divides by it; the monolith calls the `pkg` copies of `PaginationBuilder` and `TotalPage`, which are not part of this model and are assumed to match the shared library's text | GET /users?per_page=0 with a successful list: `TotalPage(total, 0)` panics with an integer divide by zero, which `gin.Recovery()` turns into a bare 500 response instead of a page | per_page below 1 falls back to the default 10, as a non-numeric one does | medium (not executed) | UserUsecase.GetUsers, UserUsecase.ZeroPerPageRequestPanics, Pagination.ZeroPerPagePanics | UserUsecase.GetUsersClamped, UserUsecase.ClampedPagesCoverTotal, Pagination.ClampedPaginationBuilder, Pagination.ClampedNeverPanics |
| internal/features/product/usecase/product_usecase.go:89-94 | price and stock are overwritten whenever the request value is not negative, and an omitted JSON number decodes as 0 | an update whose body is only {"name": "x"} sets the product's price and stock to 0 | a field the request does not give keeps its value, as for the text fields | medium (not executed) | ProductUsecase.ApplyUpdate, ProductUsecase.RenameResetsPriceAndStock | ProductUsecase.ApplyPatch, ProductUsecase.UpdateProductPatched, ProductUsecase.PatchRenameKeepsEverythingElse |
