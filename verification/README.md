# User-account core, modelled in Dafny

This project models the domain logic of a small Go user-account service. It covers:

- the user record and its helpers: soft-delete test, construction from a registration request, in-place profile update, projection to the response DTO, and the login value;
- the user repository: create and update guarded by an existence check, existence test, and lookup by username;
- the account service: registration, login with a password check, and profile lookup that hides soft-deleted users;
- the bearer gate: the HTTP middleware that slices the token out of the `Authorization` header, has it verified, and either answers 401 or forwards the verified claims;
- the claims lookup in the protected `Validate` handler.

The external pieces are parameters:

- **bcrypt** is `Env.hash` (a digest or an error text) for hashing, and a `matches(plain, hash)` predicate for checking.
- **`time.Now` and `uuid.NewV4`** are `Env.now` and `Env.freshId`.
- **The struct validator** is `Env.validate`.
- **The database** is a `map<Uuid, User>`. `Faults` gives the driver's error text for the read (the existence count or the username lookup) and for the write transaction.
- **The JWT library** is an oracle `parse`, which returns a parse error or the parsed claims with a validity flag.

Go's `(value, err)` pairs are `Result<T> = Ok(value) | Fail(value, err)`. Both constructors carry the value because the source returns meaningful values next to errors: the mutated record on a validation error, the deleted row on a profile lookup, and zero values. The error kinds are `BadRequest(msg) | NotFound | Conflict | Internal(msg)`. `Internal` covers every error the failure package does not classify: bcrypt, the validator, the database driver and the JWT library.

Modules, one per source file: `Failure` and `Primitives` (shared types), `UserModel` (model.go), `UserRepository` (repository.go), `UserService` (service.go), `JwtModel` (claims.go), `JwtMiddleware` (jwt.go) and `Handlers` (the claims lookup of handlers/user.go).

The code behaves as follows, and the model follows it:

- Registration issues no access token; `UserService.Create` proves the returned user's token is empty.
- A half-set soft delete (only the instant, or only the deleter) counts as live, not as invalid.
- There is no profile-update service operation.
- Login does not hide soft-deleted users: `UserService.Login` states its outcome without any deletion condition. Only `ResolveByUsername` hides them.

## Model

| member | source | states |
|---|---|---|
| UserModel.DeletedIffResponseShowsDeletion | internal/domain/user/model.go:31-33 | a user is deleted exactly when both the deletion instant and the deleter are set, which is exactly when its response shows both |
| UserModel.IsDeleted | internal/domain/user/model.go:31-33 | a user is deleted exactly when both DeletedAt and DeletedBy are set; a record with only one of them set is not deleted |
| UserModel.NewFromRequest | internal/domain/user/model.go:72-92 | a hashing error returns the zero user and that error; otherwise the new user's id is the fresh id and it is its own creator; username, name and role are copied; the password is the digest, not the plaintext; created at the clock reading; nothing is updated or deleted; it fails exactly when validation rejects it; a successful one is never deleted |
| UserModel.HashFailureSkipsValidation | internal/domain/user/model.go:50-78 | when hashing fails, construction and update give the same result whatever the validator would say |
| UserModel.NewUserResponse | internal/domain/user/model.go:79-87 | the response of a new user names the user as its own creator and shows no updater, deleter, update or deletion time |
| UserModel.Update | internal/domain/user/model.go:49-65 | a hashing error returns the record untouched; otherwise it overwrites exactly username, name, password (the digest), role, update time and updater (the acting user's id); id, token, creation and deletion stamps are unchanged; a validation error is reported with the fields already changed |
| UserModel.UpdateLastWins | internal/domain/user/model.go:49-61 | the last update wins: whatever an earlier update with the same request did (another salt, another clock reading, even a hashing failure), a later update that hashes gives the same record as applying it alone |
| UserModel.UpdateKeepsDeletion | internal/domain/user/model.go:56-61 | an update never changes whether the user is deleted, and the updated user's response names the actor as updater |
| UserModel.ToResponse | internal/domain/user/model.go:97-113 | every field except the password is copied; the updater and deleter become None exactly when the nullable id is not valid, and otherwise carry the id |
| UserModel.ResponseRoundTrip | internal/domain/user/model.go:124-136 | the response loses only the password: given it back, a user whose invalid nullable ids are nil is rebuilt exactly |
| UserModel.ResponseHidesPassword | internal/domain/user/model.go:97-112 | changing the password never changes the response |
| UserModel.LoginFromRequest | internal/domain/user/model.go:151-162 | never fails; copies username and password verbatim, with no user and no token attached |
| UserModel.LoginToResponse | internal/domain/user/model.go:164-171 | the login response carries the login's access token |
| UserModel.LoginResponseOnlyToken | internal/domain/user/model.go:164-171 | two logins have the same response exactly when they carry the same access token |
| UserRepository.Row | internal/domain/user/model.go:16-29 | a row read back has no access token (not a column) and its invalid nullables hold their zero values (written as NULL); validity and every valid nullable survive, all other fields are unchanged, and a user already in that form is written as is |
| UserRepository.ExistsById | internal/domain/user/repository.go:129-138 | a failed count returns false with the error; otherwise true exactly when the table has a row with that id |
| UserRepository.Create | internal/domain/user/repository.go:82-103 | every failure leaves the table unchanged; a failed existence check returns its error; a taken id is a Conflict; a fresh id succeeds exactly when the write succeeds, and the table becomes the old one plus that id mapped to the user's row |
| UserRepository.Update | internal/domain/user/repository.go:105-126 | every failure leaves the table unchanged; a failed existence check returns its error; an absent id is NotFound; a present id succeeds exactly when the write succeeds and replaces the whole row at that id (creation and deletion stamps included); other ids are untouched |
| UserRepository.ResolveByUsername | internal/domain/user/repository.go:141-152 | a failed read returns the zero user and the error; otherwise it succeeds exactly when some row has the username, returns such a row (deleted or not), and fails with NotFound and the zero user when none does |
| UserRepository.ReplayKeepsKeyed | internal/domain/user/repository.go:20-60 | any sequence of creates and updates keeps every row under its own id and in read-back form, and never removes a row |
| UserRepository.StoredRowRoundTrip | internal/domain/user/model.go:97-136 | a stored row loses only its password in the response: given the password back, the row is rebuilt exactly |
| UserRepository.WriteKeepsKeyed | internal/domain/user/repository.go:155-186 | a single insert or update keeps the table keyed by id and in read-back form, and never removes a row |
| UserRepository.CreateTwiceConflicts | internal/domain/user/repository.go:82-93 | creating an id that a previous create added yields Conflict and leaves the table as it was |
| UserRepository.CreateThenUpdate | internal/domain/user/repository.go:105-125 | after a create the id exists, and an update of that id replaces its row |
| UserService.Create | internal/domain/user/service.go:27-39 | a construction failure becomes BadRequest with the cause's text and leaves the table alone; otherwise the repository's verdict and table are returned unchanged, so a taken id is a Conflict; a success stores the user under the fresh id, hashed, with no access token |
| UserService.Login | internal/domain/user/service.go:42-62 | an unknown username is the repository's NotFound; a password mismatch is BadRequest("Password False!") with an empty login; a success carries the request credentials and a stored user with that username whose hash matches, and no token; with unique usernames it succeeds exactly when the password matches, whether or not the user is deleted |
| UserService.RegisterThenLogin | internal/domain/user/service.go:27-61 | registering and then logging in with the same credentials succeeds and resolves the registered user, when the digest matches its own plaintext, the record validates, the fresh id is free and no row carries the username yet; other rows may share usernames among themselves |
| UserService.ResolveByUsername | internal/domain/user/service.go:66-75 | a success is a stored, non-deleted user with that username; a deleted row the repository found becomes NotFound (the row still comes back); the repository's errors pass through; with unique usernames it succeeds exactly when the row is not deleted |
| JwtMiddleware.ValidateJwt | transport/http/middleware/jwt.go:32-48 | claims are returned only when the token parses into the claims type and is valid; in every other case an error and no claims |
| JwtMiddleware.ExtractToken | transport/http/middleware/jwt.go:53 | the token is the header minus its first seven bytes; a header shorter than seven bytes is out of range |
| JwtMiddleware.BearerHeaderYieldsToken | transport/http/middleware/jwt.go:53 | a header made of the seven bytes "Bearer " and then the token yields exactly that token |
| JwtMiddleware.SchemeNeverChecked | transport/http/middleware/jwt.go:53 | any seven bytes before the token give the same gate outcome; the scheme name is never checked |
| JwtMiddleware.Gate | transport/http/middleware/jwt.go:51-72 | a header shorter than seven bytes panics on the slice; a header of exactly seven bytes (empty token) is 401 "Unauthorized"; a failed validation is 401 "Unauthorized"; the downstream handler is reached only on successful validation, with the context extended by the verified claims under ClaimsKey("claims") and otherwise unchanged |
| JwtMiddleware.MissingHeaderPanics | transport/http/middleware/jwt.go:53 | a missing header (read as empty) panics on the slice, before any 401 answer |
| Handlers.ValidateAsWritten | internal/handlers/user.go:106-116 | as written, the handler answers 200 with the claims stored under the plain string key "claims" when that key is in the context, and otherwise 401 "Error Claims" |
| Handlers.AsWrittenRefusesVerifiedRequest | internal/handlers/user.go:108 | a request the gate forwarded with verified claims is still answered 401 "Error Claims" by the handler as written |
| Handlers.Validate | internal/handlers/user.go:106-116 | reading the gate's key, the handler answers 200 with the claims under ClaimsKey("claims"), and otherwise 401 "Error Claims" |
| Handlers.ValidateEchoesVerifiedClaims | transport/http/middleware/jwt.go:69-70 | after the gate forwards, the corrected handler answers 200 with exactly the claims the gate verified |

## Left out

- bcrypt hashing and checking (model.go:39-47) are a foreign library. Hashing is the parameter `Env.hash` and checking is `matches`. No round trip between them is claimed.
- JWT parsing, signature and expiry checks are library calls, so `parse` stands in for them. The service never sets an access token, so token issuance is not modelled.
- SQL text, `WithTransaction`, `PrepareNamed` and logging are not modelled. A transaction either writes its one statement or fails with the driver's error text and writes nothing.
- The race between the existence check and the insert is concurrency. Each call is atomic in the model.
- `time.Now` and `uuid.NewV4` are parameters. The source ignores the error from `uuid.NewV4`, so the fresh id may be any value, including nil.
- The struct validator (`shared.GetValidator`) is the parameter `Env.validate`. The User struct carries no validation tags, but the validator's configuration is not part of this model.
- shared/nuuid and the null-time package are not part of this model. `nuuid.From` is taken to set the id valid, and `Ptr` to return the id exactly when it is valid. An invalid NUUID is taken to be written as NULL and read back as the zero value, as `UserRepository.Row` states.
- The failure package is not part of this model. The texts of its Conflict and NotFound errors are not modelled, so NotFound("User") and NotFound("user") are the same kind here.
- `ExistsByID` scans `COUNT(id)` into a bool. The model reads that count as "the id has a row", because the table is keyed by id.
- UserRepository.ResolveByUsername: usernames match by exact equality, which assumes a binary collation on the username column. The schema is not part of this model, and under a case-insensitive collation `WHERE username = ?` would also match other spellings. `UserService.Login` and `UserService.ResolveByUsername` inherit this assumption.
- UserRepository.Row: instants keep full precision through a write, so any truncation by the DATETIME column is not modelled.
- Username uniqueness is not enforced by the model. Where it matters, it is a hypothesis (`UniqueUsernames`).
- The header is given as the bytes of the value `Header.Get` returns, empty for a missing header. Header-name canonicalisation and net/http's recovery from the slice panic are not modelled.
- UserService.Login: the BadRequest branch after `Login.NewFromRequestFormat` (service.go:43-46) is not modelled. That function never returns an error, as `UserModel.LoginFromRequest` proves.
- The JSON marshalling, the router, and the CreateUser, Login and Profile handlers are plumbing. They are not modelled.
- The UpdateUser handler never calls any update logic, and the service interface has no update operation, so no profile-update service operation is modelled.
- Instants are abstract integers; only equality between them matters to the core.

## Findings

| source | as written | input that shows it | evidently intended | confidence | as-written member | corrected member |
|---|---|---|---|---|---|---|
| internal/handlers/user.go:108 | the handler reads the claims with `Value("claims")`, a plain string key, while the gate stores them under `ClaimsKey("claims")` (transport/http/middleware/jwt.go:69); Go context keys of different types are never equal | any request with a token the library accepts, for example header "Bearer " + a valid token: the gate forwards it, and the handler answers 401 "Error Claims" | look the claims up under `ClaimsKey("claims")` and answer 200 with them (the same lookup recurs at handlers/user.go:90 and :121) | high; not executed | Handlers.AsWrittenRefusesVerifiedRequest | Handlers.ValidateEchoesVerifiedClaims |
