# Account service: a Dafny model

This project models the account and session core of a NestJS back end
(`louisnguyentech/cursor-agents`, directory `nestjs/`). The model covers:

- **`AccountsService`**: registration (`create`, `signup`), login, the
  refresh-token rotation (`refresh`, `issueTokens`), profile update, soft
  delete (`remove`), and the reads (`findById`, `findByIdPublic`,
  `findOne`, `findAll` with its page arithmetic).
  - The `accounts` collection is a `seq<Account>` held by the class
    `Accounts.AccountsService`, and the operations that write to it are
    methods of that class.
  - A record's `_id` is its position in the collection, since records are
    never hard-deleted.
  - Each method is proved against a pure function that states what it
    decides: `LoginGuard`, `RefreshGuard`, `Rotated`, `Updated`,
    `SoftDeleted`. The lemmas of module `AccountsProperties` are proved about
    those functions.
  - Every method keeps `StoreInvariant`:
    - the unique index on `email`;
    - addresses stored lower-cased;
    - a stored refresh hash always paired with its expiry.
- **`JwtStrategy.validate`**: the acceptance rule for access tokens on
  protected routes (module `JwtStrategy`).
- **`validateEnv`**: the startup check of the environment, with defaults
  (module `EnvValidation`).
- **The `Account` schema**: its fields, the role enum, the defaults, the
  fields hidden from default reads, and the unique `email` index (module
  `AccountSchema`).

The model replaces the program's external pieces as follows:

- **bcrypt** is a digest that records its salt and its secret (module
  `Bcrypt`).
  - The salt, which bcrypt draws at random, is a parameter.
  - `Compare` holds exactly for the hashed secret.
- **A JWT** is a datatype (module `Jwt`).
  - A token is `Signed` (built by `Sign` with the server secret),
    `Tampered` (its signature does not match its claims), or `Malformed`.
  - `Verify` accepts a signed token whose `exp` lies strictly after the
    current second.
- **Time** is an explicit `nowMs` parameter in milliseconds.
  - The JWT `iat` and `exp` claims are whole seconds (`nowMs / 1000`).
  - The lifetimes from `JWT_ACCESS_EXPIRY` and `JWT_REFRESH_EXPIRY` are
    given as whole seconds in a `TokenConfig`. The defaults `15m` and `7d`
    are `DefaultTokenConfig`.
- **Exceptions** are values of `Accounts.Error`, carrying the exception
  class and its message.
  - The store's own duplicate-key error on the unique `email` index is
    `DuplicateKey`.
- **The schema's `timestamps` option** is written out.
  - Every insert sets `createdAt` and `updatedAt`.
  - Every update, including the `$set` of `issueTokens`, moves `updatedAt`.

Some members have no contract of their own and are described by the rows of
the members that use them:

- `Bcrypt.Compare` is `bcrypt.compare` (`accounts.service.ts:118` and `:142`)
  on whole inputs.
- `BcryptTruncation.CompareAsWritten` is the same call reading only the first
  72 bytes of each token (`accounts.service.ts:142`).
- `AccountSchema.Public` is the projection `-password -refreshToken
  -refreshTokenExpiresAt` (`accounts.service.ts:49`, `:75`, `:92`).
- `Accounts.Listed` is `find(filter)` over the whole collection, in natural
  order, before `skip` and `limit` (`accounts.service.ts:44-48`).

Module `BcryptTruncation` models the bcrypt comparison in `refresh` as it
really behaves: bcrypt reads only the first 72 bytes of its input. See
"Findings".

## Model

| member | source | states |
|---|---|---|
| Bcrypt.Hash | nestjs/src/modules/accounts/accounts.service.ts:32 | a fresh hash verifies the secret it was made from and carries the salt drawn for it |
| Bcrypt.HashVerifiesOnlyItsSecret | nestjs/src/modules/accounts/accounts.service.ts:118 | hashes of one secret with different salts differ; a hash verifies a candidate if and only if it is the hashed secret |
| Jwt.Sign | nestjs/src/modules/accounts/accounts.service.ts:153-164 | a signed token carries the given payload, an `iat` equal to the current second, and an `exp` that is `iat` plus the lifetime |
| Jwt.Verify | nestjs/src/modules/accounts/accounts.service.ts:126-132 | verification succeeds if and only if the token is correctly signed and its `exp` lies after the current second, and then yields exactly its claims |
| Jwt.SignThenVerify | nestjs/src/modules/accounts/strategies/jwt.strategy.ts:14-18 | round trip: a token with a positive lifetime verifies when it is issued and yields its payload; it stops verifying once the lifetime has passed |
| AccountSchema.NewAccount | nestjs/src/modules/accounts/schemas/account.schema.ts:11-32 | a new record keeps the given address and hash; `role` defaults to user and `isActive` to true; `deletedAt` is null; no session is stored; both timestamps are the insert time |
| AccountSchema.PublicHidesSecrets | nestjs/src/modules/accounts/schemas/account.schema.ts:16-29 | records that differ only in `password`, `refreshToken` or `refreshTokenExpiresAt` read the same in public, and the public view keeps the address, role and active flag |
| AccountSchema.UniqueIndexGivesOneLivePerEmail | nestjs/src/modules/accounts/schemas/account.schema.ts:13-14 | the unique index on `email`, which also covers soft-deleted records, implies that no two live records share an address |
| Accounts.ToLower | nestjs/src/modules/accounts/accounts.service.ts:29 | lower-casing keeps the length, maps each character through ASCII lower-casing, and leaves no upper-case letter |
| Accounts.ToLowerIdempotent | nestjs/src/modules/accounts/accounts.service.ts:34 | lower-casing twice equals lower-casing once; a lower-case address is unchanged |
| Accounts.FindEmailFrom | nestjs/src/modules/accounts/accounts.service.ts:114-117 | the lookup by address returns the first matching record in natural order, and returns none only when no record matches |
| Accounts.FindLiveByEmail | nestjs/src/modules/accounts/accounts.service.ts:28-30 | the lookup `{ email, deletedAt: null }` yields a live record with that address, and yields none exactly when no live record has it |
| Accounts.FindAnyByEmail | nestjs/src/modules/accounts/schemas/account.schema.ts:13-14 | what the unique index sees: a record with that address, deleted or not, and none exactly when no record has it |
| Accounts.FindById | nestjs/src/modules/accounts/accounts.service.ts:65-70 | returns the stored record, secrets included, if and only if the id names a record that is not deleted |
| Accounts.FindByIdPublic | nestjs/src/modules/accounts/accounts.service.ts:72-77 | finds a record exactly when `findById` does, and returns its view without the hidden fields |
| Accounts.FindOne | nestjs/src/modules/accounts/accounts.service.ts:79-83 | fails with NotFound "Account not found" if and only if no live record has the id; otherwise returns exactly that record's public view, every visible field included |
| Accounts.ListedFromSound | nestjs/src/modules/accounts/accounts.service.ts:44-49 | every listed entry is the public view of a live record of the requested role, and entries appear in increasing id order |
| Accounts.ListedFromComplete | nestjs/src/modules/accounts/accounts.service.ts:44-48 | every live record of the requested role appears in the listing |
| Accounts.CeilDiv | nestjs/src/modules/accounts/accounts.service.ts:61 | the result is the rounded-up quotient: `(q-1)*d < n <= q*d` |
| Accounts.Window | nestjs/src/modules/accounts/accounts.service.ts:50-51 | skip then limit: the window has the expected size and holds the records that follow the skipped ones, in order |
| Accounts.FindAll | nestjs/src/modules/accounts/accounts.service.ts:42-63 | page defaults to 1 and limit to 10; `total` counts the live records of the role; `data` holds at most `limit` records, exactly those after the first `(page-1)*limit`; `totalPages` is the rounded-up `total/limit` |
| Accounts.LoginGuard | nestjs/src/modules/accounts/accounts.service.ts:113-120 | login admits only a live record under the lower-cased address whose password matches and which is active; it fails only with "Invalid credentials" or "Account disabled" |
| Accounts.StoredSession | nestjs/src/modules/accounts/accounts.service.ts:126-141 | passing the first four refresh checks means the token is signed and unexpired, has kind refresh, and names a live record with a stored hash whose expiry is not before now |
| Accounts.RefreshGuard | nestjs/src/modules/accounts/accounts.service.ts:124-143 | refresh accepts a token if and only if all five checks pass, in which case the account is the token's subject; every refusal is Unauthorized |
| Accounts.IssuedPair | nestjs/src/modules/accounts/accounts.service.ts:148-164 | issues an access and a refresh token, both signed for the account's id and address, expiring after the configured access and refresh lifetimes |
| Accounts.WithSession | nestjs/src/modules/accounts/accounts.service.ts:165-175 | the `$set` stores the new hash with an expiry seven days after now and moves `updatedAt`; every other field is unchanged |
| Accounts.Rotated | nestjs/src/modules/accounts/accounts.service.ts:168-178 | `issueTokens` writes only record `id`; every other record is unchanged |
| Accounts.Updated | nestjs/src/modules/accounts/accounts.service.ts:89 | `$set: dto` replaces exactly the given role and active flag and moves `updatedAt`; every other field is unchanged |
| Accounts.SoftDeleted | nestjs/src/modules/accounts/accounts.service.ts:98-104 | `remove` sets `deletedAt` on record `id` only, and the record is no longer live |
| Accounts.StoreInvariantAfterWrite | nestjs/src/modules/accounts/schemas/account.schema.ts:13-32 | a write that keeps a record's address and its paired session fields preserves the unique index, the lower-case addresses and the pairing |
| Accounts.AccountsService.constructor | nestjs/src/modules/accounts/accounts.service.ts:21-25 | a service starts with an empty collection that satisfies the invariant |
| Accounts.AccountsService.Create | nestjs/src/modules/accounts/accounts.service.ts:27-40 | the three outcomes of `create`: a live record with the address gives Conflict; only a deleted one gives the duplicate-key error; otherwise a record with the lower-cased address and the defaults is appended; the collection changes only in the last case |
| Accounts.AccountsService.IssueTokens | nestjs/src/modules/accounts/accounts.service.ts:147-180 | returns the pair signed for the record and stores the hash of its refresh token with a seven-day expiry on that record alone |
| Accounts.AccountsService.Signup | nestjs/src/modules/accounts/accounts.service.ts:108-111 | either nothing changes and the error of `create` is returned, or the new record is stored already holding the session of the returned pair |
| Accounts.AccountsService.Login | nestjs/src/modules/accounts/accounts.service.ts:113-122 | a refused login returns the refusal of `LoginGuard` and changes nothing; an admitted one returns the pair issued now and rotates that record's session |
| Accounts.AccountsService.Refresh | nestjs/src/modules/accounts/accounts.service.ts:124-145 | a refused refresh returns the refusal of `RefreshGuard` and changes nothing; an accepted one returns a new pair for the token's subject and stores the new refresh hash |
| Accounts.AccountsService.Update | nestjs/src/modules/accounts/accounts.service.ts:85-96 | NotFound with no change for a missing or deleted record; otherwise sets the given fields and returns the updated public view |
| Accounts.AccountsService.Remove | nestjs/src/modules/accounts/accounts.service.ts:98-106 | NotFound with no change for a missing or deleted record; otherwise soft-deletes it |
| JwtStrategy.Validate | nestjs/src/modules/accounts/strategies/jwt.strategy.ts:21-30 | accepts if and only if the payload is an access payload whose subject is a live, active account; it then returns exactly that account's public view; every refusal is Unauthorized |
| JwtStrategy.Authenticate | nestjs/src/modules/accounts/strategies/jwt.strategy.ts:14-30 | a request passes only with a token that verifies and whose payload `validate` accepts; a token that does not verify is refused |
| JwtStrategy.ValidateRefusesOtherKindsBeforeLookup | nestjs/src/modules/accounts/strategies/jwt.strategy.ts:22-24 | a payload of another kind is refused with "Invalid token type" whatever the collection holds |
| JwtStrategy.KindSeparation | nestjs/src/modules/accounts/accounts.service.ts:133 | a token accepted by the guard is refused by `refresh`, and a token accepted by `refresh` is refused by the guard, at any time and in any collection |
| JwtStrategy.DisablingRevokesAccess | nestjs/src/modules/accounts/strategies/jwt.strategy.ts:26-27 | after `update` switches an account off, every token for it is refused |
| JwtStrategy.RemovalRevokesAccess | nestjs/src/modules/accounts/strategies/jwt.strategy.ts:25-27 | after `remove`, every token for the account is refused |
| JwtStrategy.IssuedAccessTokenIsAccepted | nestjs/src/modules/accounts/strategies/jwt.strategy.ts:21-29 | an access token issued for a live, active account is accepted within its lifetime and yields that account's public view |
| EnvValidation.MissingOf | nestjs/src/config/env.validation.ts:21 | the filter keeps exactly the keys that are absent or empty |
| EnvValidation.ValidateEnv | nestjs/src/config/env.validation.ts:20-40 | fails exactly when a required key is missing, with the message naming the missing keys |
| EnvValidation.MissingKeysInOrder | nestjs/src/config/env.validation.ts:14-21 | the missing keys are the unset required ones, in the order MONGODB_URI, JWT_SECRET |
| EnvValidation.ValidateEnvErrors | nestjs/src/config/env.validation.ts:22-26 | the exact error text for each of the three failing combinations |
| EnvValidation.ValidateEnvFailsIff | nestjs/src/config/env.validation.ts:21-22 | the check fails if and only if MONGODB_URI or JWT_SECRET is absent or empty |
| EnvValidation.ValidateEnvDefaults | nestjs/src/config/env.validation.ts:28-39 | on success the required values are non-empty and passed through; present optional values pass through, even when empty; absent ones take their defaults |
| EnvValidation.ValidateEnvIdempotent | nestjs/src/config/env.validation.ts:20-39 | validating the record that a successful check returns gives that record again |
| AccountsProperties.LoginWithoutAccount | nestjs/src/modules/accounts/accounts.service.ts:114-119 | with no live record under the lower-cased address, login fails with "Invalid credentials" |
| AccountsProperties.LoginWithAccount | nestjs/src/modules/accounts/accounts.service.ts:118-121 | for an existing account, a wrong password gives the same "Invalid credentials" as a missing account; "Account disabled" comes only after the password matched; otherwise that account logs in |
| AccountsProperties.LoginIgnoresCase | nestjs/src/modules/accounts/accounts.service.ts:115 | two addresses with the same lower-cased form log in identically |
| AccountsProperties.RefreshRejectionOrder | nestjs/src/modules/accounts/accounts.service.ts:126-143 | the error of each refresh refusal, in check order: unverifiable token, wrong kind, no live session, expiry strictly before now, hash mismatch |
| AccountsProperties.RefreshIgnoresIsActive | nestjs/src/modules/accounts/accounts.service.ts:134-144 | switching an account's active flag never changes a refresh decision |
| AccountsProperties.RotationAcceptsOnlyNewToken | nestjs/src/modules/accounts/accounts.service.ts:167-175 | once a new refresh hash is stored, the only token the account's session accepts is the one just issued |
| AccountsProperties.RefreshIsSingleUse | nestjs/src/modules/accounts/accounts.service.ts:142-144 | an exchanged refresh token is refused afterwards whenever the new token differs from it, which it does unless it was exchanged within the second it was issued |
| AccountsProperties.IssuedRefreshTokenLifetime | nestjs/src/modules/accounts/accounts.service.ts:161-166 | a new refresh token is accepted while both its own lifetime and the seven-day stored window last; past the window it is refused whatever the signed lifetime |
| AccountsProperties.RotationKeepsSessionPaired | nestjs/src/modules/accounts/accounts.service.ts:172-175 | storing a session sets hash and expiry together, expiring seven days after now, and keeps the invariant |
| AccountsProperties.RemovedAccountIsInvisible | nestjs/src/modules/accounts/accounts.service.ts:98-106 | after `remove`, the account is absent from `findById`, `findByIdPublic`, `findOne`, the login lookup and the refresh lookup |
| AccountsProperties.ReRegistrationAfterRemoval | nestjs/src/modules/accounts/accounts.service.ts:28-38 | after `remove`, the address gives no Conflict, but the unique index still holds a record with it |
| AccountsProperties.PageNonEmptyIff | nestjs/src/modules/accounts/accounts.service.ts:50-61 | a page holds records if and only if its number is at most `totalPages` |
| AccountsProperties.EveryRecordOnItsPage | nestjs/src/modules/accounts/accounts.service.ts:50-51 | the pages cover the listing: record `k` is entry `k % limit` of page `k / limit + 1` |
| AccountsProperties.ListingShowsLiveRecordsOfRole | nestjs/src/modules/accounts/accounts.service.ts:44-45 | a record is listed if and only if it is live and of the requested role |
| AccountsProperties.RefreshTokenIsSingleUse | nestjs/src/modules/accounts/accounts.service.ts:108-145 | signing up, exchanging the refresh token a second or more later, then presenting it again: the first exchange succeeds and the second fails with "Invalid refresh token" |
| AccountsProperties.SecondRemovalFails | nestjs/src/modules/accounts/accounts.service.ts:98-106 | removing a live account succeeds once; a second removal fails with NotFound |
| BcryptTruncation.SigningInput | nestjs/src/modules/accounts/accounts.service.ts:162-164 | the text of a compact JWT up to its signature is longer than the 72 bytes bcrypt reads |
| BcryptTruncation.Base64UrlAppend | nestjs/src/modules/accounts/accounts.service.ts:162-164 | base64url encoding of text cut after whole three-byte groups is the concatenation of the encodings of its parts |
| BcryptTruncation.CompareAsWrittenAcceptsMore | nestjs/src/modules/accounts/accounts.service.ts:142 | the truncating comparison accepts every token the whole-token comparison accepts |
| BcryptTruncation.SameAccountSamePrefix | nestjs/src/modules/accounts/accounts.service.ts:148-164 | two tokens with the same subject and address have the same first 72 bytes, whatever their kind, times or signature |
| BcryptTruncation.RefreshGuardAsWritten | nestjs/src/modules/accounts/accounts.service.ts:124-143 | the refresh decision as written accepts whatever `RefreshGuard` accepts, and accepts only tokens that pass the first four checks |
| BcryptTruncation.StaleRefreshTokenAcceptedAsWritten | nestjs/src/modules/accounts/accounts.service.ts:142-143 | after rotation, an earlier unexpired refresh token of the same account is accepted as written, while the whole-token comparison refuses it |
| BcryptTruncation.StaleTokenExample | nestjs/src/modules/accounts/accounts.service.ts:142-143 | a concrete case: `a@x.com` logs in at seconds 1 and 5; at second 6 the first refresh token is accepted as written and refused by `RefreshGuard` |

## Left out

- HTTP routing, dependency injection, Swagger and bootstrap (`accounts.controller.ts`, `accounts.module.ts`, `main.ts`) have no logic of their own and are not part of this model.
- DTO validation (`create-account.dto.ts`, `update-account.dto.ts`) runs in a library pipe outside the service. Password length is not modelled, and a role is always one of the two enum values by its type.
- `query-account.dto.ts` is not part of this model. `Accounts.FindAll` takes `page >= 1` and `limit >= 1` as its precondition in place of that DTO's validation.
- Signature cryptography and the HS256 algorithm are not modelled. A token is valid exactly when `Sign` built it, and `Tampered` stands for any token whose signature does not match.
- The `ms` parsing of `15m` and `7d` is left out. Lifetimes are whole seconds in `TokenConfig`.
- Lower-casing covers ASCII letters only. JavaScript's `toLowerCase` also maps other Unicode letters.
- The stored seven-day expiry uses calendar `setDate` in the server's local time zone. The model adds exactly 7·24·3600·1000 ms, which ignores daylight-saving changes.
- Concurrency is left out. This includes `Promise.all` in `findAll` and two simultaneous `refresh` calls with one token, both of which could pass the comparison before either write. The model is sequential.
- The collection's natural order is taken to be insertion order.
- MongoDB query semantics are left out. A malformed id (an ObjectId cast error) is not modelled: ids are natural numbers, and any id that names no live record is simply not found.
- `validateEnv` accepts values of any type and applies `String(...)` to them. The model's environment holds strings only, so the conversion is the identity. A present value of `undefined` (`??` treats it as absent) is not distinguished from an absent key.
- The `sub` claim is written in decimal here. The service writes the ObjectId's 24 hexadecimal digits. The finding below depends only on the subject being the same for every token of one account.
- JSON escaping of the address inside the payload is not modelled. Token text is treated as one byte per character.
- The text of the signature after the last `.` of a token is not modelled, because bcrypt never reads that far.
- `remove` leaves the stored refresh hash and expiry in place, as the service does. They are unreachable because every lookup filters on `deletedAt`.
- Accounts.WithSession, Accounts.AccountsService.IssueTokens: the `$set` of `issueTokens` names only `refreshToken` and `refreshTokenExpiresAt`, but the schema's `timestamps` option also moves `updatedAt`. So the model states that those three fields change, not two.
- Bcrypt.Compare, Accounts.LoginGuard, Accounts.RefreshGuard, Accounts.AccountsService.Refresh: the model compares whole inputs, but the program's bcrypt reads only the first 72 bytes of what it hashes and compares. At login, any password that shares the first 72 bytes of a longer stored password is accepted; the create DTO sets a minimum password length and no maximum. At refresh, an earlier token of the same account passes (see Findings, and `BcryptTruncation` for the as-written comparison of tokens). The truncation of long passwords is not modelled.
- Accounts.StoredSession: an expiry equal to the current time is accepted, because the service compares with a strict `<`.

## Findings

| source | as written | input that shows it | evidently intended | confidence | as-written member | corrected member |
|---|---|---|---|---|---|---|
| nestjs/src/modules/accounts/accounts.service.ts:142-143 | `bcrypt.compare` reads only the first 72 bytes of the presented refresh token. A compact JWT's first 72 bytes are the 36-character encoded header, the dot, and the first 35 of the 36 characters that encode the first 27 payload bytes; those bytes hold only the start of the JSON, `sub` and `email`. So every refresh token of one account matches the stored hash | account `a@x.com` (id 0) logs in at second 1 and again at second 5; at second 6 the refresh token from second 1 is presented to `refresh` and accepted | rotation makes every earlier refresh token of the account fail `refresh` | high; not executed | BcryptTruncation.StaleTokenExample | AccountsProperties.RotationAcceptsOnlyNewToken |
