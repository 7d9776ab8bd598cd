# A verified model of the NestJS user/auth service

This project models the two service classes of a small NestJS backend for
signup, login, JWT issuance and refresh, and user CRUD, together with the
User entity and the three request bodies they accept.

- **The users store** (`UsersService`, module `Users`). The table is a
  `map<string, User>` keyed by id and owned by the class `Users.UsersService`,
  together with a logical clock that stamps `createdAt`/`updatedAt`. The writes
  are methods: `create`, `update`, `remove` and `updateRefreshToken`. Each one
  states its new table as a function of the old table. The reads are functions
  of the table: `findByEmail`, `findByEmailWithPassword`,
  `findByEmailWithRefreshToken` and `findOne`. `findAll` is a read-only method
  whose loop takes the rows in an order of its choosing, as the database does.
  The class invariant `Entity.Invariant` says three things: every record sits
  under its own id; no two records share an email; every timestamp is a past
  clock reading with `createdAt <= updatedAt`. Every write preserves it.
- **The record shape** (module `Entity`). `User` is the full row. `PublicUser`,
  `Credentials` and `TokenRecord` are the three projections the service reads.
  Only `Credentials`, from `findByEmailWithPassword`, has a password field, so
  no other read can expose it. firstName and lastName are plain required strings.
- **The authentication workflow** (`AuthService`, module `Auth`). `signup` and
  `login` are methods of `Auth.AuthService`, which writes to its `UsersService`.
  `refreshAccessToken` writes nothing and is the function
  `Auth.RefreshAccessToken` of the table it reads. bcrypt and the JWT service
  (JSON Web Tokens, RFC 7519) are the abstract functions of
  `Primitives.Primitives`. The proofs use only these facts about them:
  - `Primitives.Sound`: a digest matches its input and is never empty
    (`HashSound`), and a signed token verifies to its claims (`TokenSound`).
  - `Primitives.HashBinding`: a digest matches nothing else. Only the
    stale-token lemma uses this.
  - `Primitives.Truncates`: bcrypt reads only the first 72 characters of its
    input. Only the lemmas of "## Findings" use this.

  The salt bcrypt draws and the issue time of a token are method parameters.
- **Request validation** (modules `Validators`, `AuthDto`, `UsersDto`).
  `MinLength(8)` and `IsNotEmpty` are concrete predicates. `MinLength` counts
  characters as validator.js's `isLength` does, which skips the variation
  selectors U+FE0E and U+FE0F. `IsEmail` is a
  parameter `isEmail: string -> bool` of every validity predicate, so nothing
  is assumed about its rule.

Two details of the code shape the model:

- `refreshAccessToken` never writes and never rotates the refresh token. Only
  `login` replaces the stored digest.
- The entity declares no `refreshToken` column, but the service selects it
  (src/users/users.service.ts:61) and writes it
  (src/users/users.service.ts:124). The model gives `User` an optional
  `refreshToken` field. Because it is not a declared column, a default read
  does not return it.

## Model

| member | source | states |
|---|---|---|
| `Users.UsersService.Create` | src/users/users.service.ts:27-30 | adds exactly one record under an id not yet in the table and returns it. The record has the given fields, no refresh token and both timestamps at the current clock. Every other record is unchanged. A duplicate email is refused by the unique index, and then nothing changes |
| `Users.GenerateId` | src/users/user.entity.ts:19-20 | the generated primary key is not already a key of the table |
| `Users.FindByEmail` | src/users/users.service.ts:37-39 | returns the default projection of the record whose email equals the argument, or None exactly when no record has that email |
| `Users.FindByEmailWithPassword` | src/users/users.service.ts:46-51 | the one read that returns the stored password digest, with id and email, of the record with that email; None when there is none |
| `Users.FindByEmailWithRefreshToken` | src/users/users.service.ts:58-63 | returns id, email and stored refresh-token digest of the record with that email; None when there is none |
| `Users.FindAll` | src/users/users.service.ts:69-72 | returns one entry per stored record (same count, every id present, no id twice). Each entry is that record's projection, which has no password field |
| `Users.FindOne` | src/users/users.service.ts:79-87 | an absent id gives NotFound with the message `User with id <id> not found`; a present id gives that record minus its password |
| `Users.UsersService.Update` | src/users/users.service.ts:94-104 | an absent id gives NotFound and changes nothing. An email another record holds is refused by the unique index and changes nothing. Otherwise only that record is replaced, by its patched version, and the result is its default projection |
| `Users.PatchFrame` | src/users/users.service.ts:95 | the patch writes each field present in the body and leaves id, password, refreshToken and createdAt as they were. Undoing the four fields it may write gives back the old record |
| `Users.PatchEmptyAndRepeated` | src/users/update-user.dto.ts:7-30 | an empty body changes only updatedAt, and applying the same body twice is the same as applying it once |
| `Users.UpdateAdvancesTimestamp` | src/users/user.entity.ts:52-60 | an update keeps createdAt and moves updatedAt strictly forward |
| `Users.UsersService.Remove` | src/users/users.service.ts:110-115 | a present id deletes exactly that record. An absent id gives NotFound and leaves the table unchanged. Afterwards findOne of that id gives NotFound |
| `Users.RemoveIsolated` | src/users/users.service.ts:110-115 | after a delete, findOne fails for the deleted id and gives the same answer as before for every other id |
| `Users.UsersService.UpdateRefreshToken` | src/users/users.service.ts:123-125 | the new table is `WithRefreshToken` of the old one. The clock advances only when the id exists; an absent id is no error and changes nothing |
| `Users.WithRefreshToken` | src/users/users.service.ts:123-125 | setting the refresh token keeps the same set of ids and leaves every other record unchanged. The target record gets the new refreshToken and a new updatedAt, and every other field of it is kept |
| `Users.CreateKeepsInvariant` | src/users/user.entity.ts:19-27 | inserting a fresh id with an unused email keeps ids and emails unique and timestamps ordered |
| `Users.PatchKeepsInvariant` | src/users/user.entity.ts:26-27 | an update that sets no email held by another record keeps emails unique |
| `Users.SetRefreshTokenKeepsInvariant` | src/users/users.service.ts:124 | setting a refresh token keeps the table invariant |
| `Entity.PublicHidesSecrets` | src/users/user.entity.ts:33-34 | two records have the same default projection exactly when they differ at most in password and refreshToken |
| `Entity.EmailsAsManyAsRecords` | src/users/user.entity.ts:26-27 | under the unique index there are as many distinct emails as records |
| `Auth.AuthService.Signup` | src/auth/auth.service.ts:32-51 | fails with BadRequest `Email is already registered` exactly when the email is already stored, whatever the password and names, and then adds nothing. Otherwise it stores one new record with the bcrypt digest of the password, never the password, plus the given email and names. It returns that record's projection, which has no password |
| `Auth.SecondSignupFindsEmail` | src/auth/auth.service.ts:35-38 | once a signup has stored an email, the duplicate check of any later signup with it fires |
| `Auth.AuthService.Login` | src/auth/auth.service.ts:59-89 | an unknown email and a wrong password both give the same BadRequest `Invalid credentials` and write nothing. On success, both tokens carry `{sub: id, email}`, with the access and refresh expiries. The record's refreshToken becomes the digest of the returned refresh token, replacing any earlier value, and that digest matches the token |
| `Auth.LoginAfterSignup` | src/auth/auth.service.ts:62-70 | after a signup, login with the same email and password passes both of login's checks and finds the new record |
| `Auth.RefreshAccessToken` | src/auth/auth.service.ts:98-122 | every failure is the same Unauthorized `Token expired or invalid`. Success happens exactly when the token verifies and a record with its email holds a non-empty refresh-token digest that bcrypt accepts for the token. On success the new access token carries that record's id and email |
| `Auth.RefreshAfterLogin` | src/auth/auth.service.ts:100-119 | a refresh token issued by login, once its digest is stored, redeems for an access token of the same user |
| `Auth.StaleTokenRejected` | src/auth/auth.service.ts:109-112 | with a hasher that reads its whole input, once login has stored the digest of a new refresh token, any other token naming that user is refused |
| `Auth.TruncatedCompareAcceptsOtherToken` | src/auth/auth.service.ts:109-112 | with bcrypt's 72-character limit, once the digest of one token is stored, any other token that agrees with it on the first 72 characters and names the same user redeems |
| `Auth.TruncationCounterexample` | src/auth/auth.service.ts:109-112 | a concrete hasher with the 72-character limit, a one-user table and two different tokens: the token whose digest is not stored redeems |
| `Auth.IssuedTokenAuthenticates` | src/auth/strategies/jwt.strategy.ts:29-34 | a token signed for `{sub: id, email}` resolves at the guard to `req.user = {userId: id, email}` |
| `Primitives.OrElse` | src/auth/auth.service.ts:75 | the expiry setting is used when it is set and non-empty; an unset or empty one falls back to the default (`1h`, `7d`) |
| `Validators.Length` | src/auth/dto/signup.dto.ts:17 | the length `@MinLength` measures is at most the number of characters, and equals it exactly when no character is a variation selector |
| `Validators.LengthAppend` | src/auth/dto/login.dto.ts:17 | appending a variation selector leaves the measured length unchanged; appending any other character adds one |
| `AuthDto.SignupRules` | src/auth/dto/signup.dto.ts:7-31 | a malformed email, a password whose measured length is under 8, an empty firstName or an empty lastName each alone makes the signup body invalid. A body that breaks none of these is valid |
| `AuthDto.LoginPasswordRule` | src/auth/dto/login.dto.ts:17-18 | given a well-formed email, a login body is valid exactly when the password's measured length is 8 or more. Fewer than 8 characters never passes. 8 or more characters pass whatever they are, as long as none is a variation selector |
| `AuthDto.LoginNeedsEmail` | src/auth/dto/login.dto.ts:11-12 | a login body with a malformed email is invalid |
| `AuthDto.SignupCredentialsLogIn` | src/auth/dto/login.dto.ts:11-18 | the email and password of every valid signup body form a valid login body |
| `UsersDto.EmptyUpdateValid` | src/users/update-user.dto.ts:7-29 | the update body with no fields is valid |
| `UsersDto.UpdateRules` | src/users/update-user.dto.ts:13-29 | a present email must be well-formed, and a present firstName or lastName must be non-empty. Dropping a field never makes a valid body invalid |

Facts that hold by construction of the types:

- `UpdateUserDto` has only email, firstName and lastName, so an update cannot
  name id, password or refreshToken.
- `SignupDto` and `LoginDto` have no optional field.
- `PublicUser` has no password field.

## Left out

- Controllers, module wiring, TypeORM configuration and the Passport guard class are left out. They are routing and dependency injection. Of the JWT strategy, only the `{userId, email}` mapping is kept (`Auth.AuthenticatedUser`).
- bcrypt and JWT internals are left out: salt format, cost factor, signature algorithm and secret. They are abstract functions. The secret is shared by `sign` and `verify` and does not appear in the model.
- Token expiry is left out. `verify` stands for the check at the moment of the call. The model does not relate it to the clock, and `Sound` assumes a signed token still verifies.
- Auth.StaleTokenRejected: relies on `HashBinding`, which bcrypt does not give. bcrypt reads only the first 72 bytes of its input, and every token the service signs for one user has the same first 72 bytes. So for the program as written, rotation does not hold: refresh accepts that user's access token and every earlier refresh token that has not expired (see "## Findings").
- Null fields in the update body are left out. `@IsOptional()` lets `null` through as well as an absent key, so `{"firstName": null}` passes validation. `update` would then write NULL into a NOT NULL column, which the database rejects. `UpdateUserDto` models only absent or present fields.
- `IsEmail` is not defined: class-validator's email rule is not part of this model.
- Whether validation runs at all is left out. It depends on a ValidationPipe set up in a bootstrap file that is not part of this model. So signup and login take their bodies as they are and do not require them to be valid.
- Postgres behaviour is left out, except that the unique index on email rejects duplicates. That rejection is `QueryFailed`, and neither service checks for it: `create` and `update` raise it only because the database does.
- Row order is left out. `findAll` promises no order, because the query has no ORDER BY.
- Users.GenerateId: builds a key longer than every existing key instead of a random UUID. Only its freshness is modelled.
- Timestamps are readings of a logical clock that advances on every row written, not wall-clock dates.
- `create` takes the four fields that signup passes, not an arbitrary `Partial<User>`.
- An update body with extra keys is out of scope.
- What TypeORM does with a property that has no declared column (refreshToken) is out of scope.
- async/await and concurrent requests are left out. Every operation is one sequential step.

## Findings

| source | as written | input that shows it | evidently intended | confidence | as-written member | corrected member |
|---|---|---|---|---|---|---|
| src/auth/auth.service.ts:109 | `bcrypt.compare(refreshToken, user.refreshToken)` reads only the first 72 bytes of the token. Every JWT signed for one user has the same first 72 bytes: a 36-character HS256 header, a `.`, then the base64url of `{"sub":"` and the first 18 characters of the id | after a login, the access token that login returned, presented to refresh | only the refresh token most recently issued by login redeems | not executed; rests on bcrypt's published 72-byte limit and the JWT encoding | `Auth.TruncatedCompareAcceptsOtherToken` (concrete case: `Auth.TruncationCounterexample`) | `Auth.StaleTokenRejected` (the same refresh check with a hasher that reads the whole token, for example one that pre-hashes the token) |
