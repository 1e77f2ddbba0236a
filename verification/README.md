# Authentication orchestrator of the blog back end

This project models `AuthService`, the authentication orchestrator of the
blog back end. The service runs over a store of user documents and offers six
operations:

- password login;
- registration, where the first user becomes SUPERUSER;
- TOTP enrolment;
- TOTP verification, which activates two-factor authentication on its
  first success;
- issuing a batch of recovery codes;
- redeeming one recovery code.

Each operation that authenticates answers a sanitized response. It holds a
signed bearer token and every user field except the password hash, the TOTP
secret and the recovery codes.

The store is the field `users: map<UserId, User>` of the class
`Auth.AuthService`. Each state-changing operation is a method that reads the
map and then reassigns it; the lookups and login only read it. Its `ensures` give the new map in terms of the old one and the
result. `Valid()` is the store invariant: every record sits under its own id,
and no two users share an email or a username. Every method preserves it.

Files:

- `wrappers.dfy`: `Option` and `Result`.
- `users.dfy`: the user document, the signed claims and the projection `GenerateJWT`.
- `recovery_codes.dfy`: the `indexOf` search and the `splice` removal. The
  single-use lemmas are proved about these.
- `auth_service.dfy`: the `AuthService` class and its store invariant.

The collaborators the code calls but does not implement appear as follows:

- the token signer (`jwtService.sign`): the class constant `sign`;
- the password check of the user document (`isValidPassword`): the class
  constant `isValidPassword`;
- the hashing the users service applies when it creates a document: the
  class constant `hashPassword`;
- the TOTP verifier of RFC 6238: the function parameter `totpVerify` of
  `ValidateTOTP`, standing for the verifier at the moment of the call;
- the secret generator: the function parameter `generateSecret` of `CreateTOTP`;
- the QR renderer: the function parameter `generateQRCode` of `CreateTOTP`;
- the recovery-code generator: its batch is the parameter `codes` of
  `CreateRecoveryCodes`.

Behaviour of the code worth noting:

- Recovery codes are a list, not a set. A duplicated code can be redeemed
  once per occurrence; redemption removes the first occurrence.
- Registration passes the input through unchanged on a non-empty store. If
  the input carries a role, that role is kept, SUPERUSER included.
- `createTOTP` does not check that the user exists. An unknown id leaves the
  store unchanged and still yields a secret.
- The errors are the code's `AuthenticationError` (login) and
  `ForbiddenError` (registration conflict, a failed TOTP check, an unknown
  recovery code).
- `validateTOTP` builds its response from the record as loaded before it
  sets `isTOTP`. So the first successful verification reports `isTOTP` as
  false.

## Model

| member | source | states |
|---|---|---|
| `Users.GenerateJWT` | src/auth/auth.service.ts:23-27 | The token is signed over exactly the claims `{email, sub: id}`. Putting back the password, the TOTP secret and the recovery codes gives the stored record again. So the response keeps every other field, and its type has no field for the three secrets. |
| `Users.GenerateJWTHidesSecrets` | src/auth/auth.service.ts:24 | The response does not depend on the secret fields: two records that differ only in those fields give the same response. |
| `RecoveryCodes.FirstIndex` | src/auth/auth.service.ts:111 | The `indexOf` answer is -1 exactly when the code is absent. Otherwise it is a position holding the code, with no earlier occurrence. |
| `RecoveryCodes.FirstIndexIsFirst` | src/auth/auth.service.ts:111 | That answer is unique: any position holding the code with no earlier occurrence is the one `indexOf` names. |
| `RecoveryCodes.IndexOf` | src/auth/auth.service.ts:111 | A linear search that returns the first index of the code, or -1. |
| `RecoveryCodes.Splice` | src/auth/auth.service.ts:114 | `splice(index, 1)` shortens the list by one. The entries before the index stay in place, the later ones move down by one, and exactly one copy of the removed value is gone. |
| `RecoveryCodes.Redeem` | src/auth/auth.service.ts:110-123 | Redemption fails exactly when the code is absent. On success, the result is the list with the code's first occurrence cut out and the other entries in their order, so the multiset of codes loses exactly one copy of the code. |
| `RecoveryCodes.RedeemSingleUse` | src/auth/auth.service.ts:108-123 | A code that occurs once is accepted by the first redemption and refused by the next. |
| `RecoveryCodes.RedeemKeepsOthers` | src/auth/auth.service.ts:113-119 | Redeeming one code leaves every other listed code redeemable. |
| `RecoveryCodes.SuccessesAreMinOccurrences` | src/auth/auth.service.ts:108-123 | Of n successive redemptions of one code, exactly min(n, number of occurrences) succeed. |
| `RecoveryCodes.OccurrencesIsMultiplicity` | src/auth/auth.service.ts:111 | The occurrence count used for redemption is the multiplicity of the code in the list. |
| `RecoveryCodes.RedeemCount` | src/auth/auth.service.ts:111-114 | A redemption either finds no copy of the code or leaves exactly one copy fewer. |
| `RecoveryCodes.SuccessesStep` | src/auth/auth.service.ts:111-119 | While the code is listed, an attempt succeeds, and the following attempts work on a list with one copy fewer. |
| `RecoveryCodes.SuccessesAbsent` | src/auth/auth.service.ts:113-123 | A code that is not listed is refused on every attempt. |
| `Auth.NewUser` | src/auth/auth.service.ts:55-57 | The document `create` stores takes the fresh id it is given and keeps the input's email and username, stores the hash of the input password, starts with no TOTP secret, TOTP off and no recovery codes. Its role is SUPERUSER exactly when the store is empty or the input asks for it; on a non-empty store it is the input's role. |
| `Auth.UpdateKeepsWellFormed` | src/auth/auth.service.ts:116-119 | Writing a record back under its id, with its email and username unchanged, keeps ids and the email and username uniqueness intact. |
| `Auth.AuthService.constructor` | src/auth/auth.service.ts:15-21 | The service attaches to an existing well-formed store, which may already hold users, with the injected signer, password check and hashing. |
| `Auth.AuthService.FindOneByEmail` | src/auth/auth.service.ts:30 | The lookup finds a record exactly when some user holds the email, and returns that stored record. |
| `Auth.AuthService.FindOneByUserName` | src/auth/auth.service.ts:49 | The lookup finds a record exactly when some user holds the username, and returns that stored record. |
| `Auth.AuthService.ValidateUser` | src/auth/auth.service.ts:29-37 | Succeeds exactly when a user holds the email and the password check passes, and returns that user. Otherwise it fails with `AuthenticationError`, whether the user is absent or the password is wrong. |
| `Auth.AuthService.Login` | src/auth/auth.service.ts:39-44 | The store is left unchanged, since nothing is modified. Login succeeds exactly when the credentials match, with the response built for the user holding the email. Both failure causes give the same `AuthenticationError`. |
| `Auth.AuthService.Register` | src/auth/auth.service.ts:46-61 | Fails with `ForbiddenError` and creates nothing when the email or the username is taken, whichever one collides. Otherwise it adds exactly one user under a fresh id, so the count grows by one. The new user's role is SUPERUSER exactly when the store was empty or the input asked for it; on a non-empty store the input is kept unchanged. It returns the new user's response, and uniqueness is preserved. Afterwards, the credentials for the new email match exactly the passwords that pass the check against the hash of the registered password. |
| `Auth.AuthService.CreateTOTP` | src/auth/auth.service.ts:63-77 | Sets the user's secret to the generated one and returns that same value as `secretKey`. The QR code is rendered from the provisioning URI with the issuer suffix. `isTOTP`, every other field and every other user are unchanged. |
| `Auth.AuthService.ValidateTOTP` | src/auth/auth.service.ts:79-99 | A missing user or a failed check leaves the store unchanged; a failed check raises `ForbiddenError`. On success `isTOTP` becomes true and nothing else changes; when it was already true, nothing changes at all, so the operation is idempotent. The response is built from the record as it was before the write. |
| `Auth.AuthService.CreateRecoveryCodes` | src/auth/auth.service.ts:101-106 | Replaces the whole recovery-code list with the batch and leaves the rest of the store unchanged. It returns the updated record, or None for an unknown id. |
| `Auth.AuthService.ValidateRecoveryCode` | src/auth/auth.service.ts:108-124 | An absent code raises `ForbiddenError` and leaves the store unchanged. A present code has exactly its first occurrence spliced out, and the new list is what `Redeem` gives; the response equals that of the record before the write. A code listed once is gone afterwards, so it cannot be redeemed twice. |

## Left out

- The TOTP algorithm (RFC 6238, section 4, with the drift window of section 5.2) depends on the clock and on HMAC. It is the parameter `totpVerify`.
- Password hashing is not modelled. The store's hashing on create is the uninterpreted `hashPassword`, and the check `isValidPassword` is an uninterpreted function of the plain password and the stored hash.
- The token signer adds a clock-dependent issued-at claim in whole seconds, and an expiry claim when its configuration asks for one, so two logins at different times can give different tokens. The model's `sign` is one fixed function of the `{email, sub}` claims, so it does not capture the clock.
- Token signing, QR rendering, and the random generation of secrets and recovery codes are function parameters or plain values.
- The base32 encoding and the `otpauth://` URI format of the secret generator are not modelled. The email reaches the model only as the label given to the generator.
- The async sequencing is not modelled; each operation is atomic. So the count-then-create race of the bootstrap rule and the read-then-write race of redemption are not represented.
- Document ids are drawn from a counter (`nextId`) in place of database-generated ObjectIds. The only property used is that a new id is fresh.
- The users service is not part of this model. `create` is taken to assign a fresh id, to hash the password, and to start the document with an empty TOTP secret, `isTOTP` false and no recovery codes; so `ValidateTOTP` for a user who never enrolled hands the verifier an empty secret rather than an absent one. `updateUser` is taken to return the updated document, and for an unknown id to change nothing and return null. The statements that `createTOTP` leaves the store unchanged for an unknown id and that `createRecoveryCodes` then returns None rest on this. That return value matters only for `CreateRecoveryCodes`: in `ValidateRecoveryCode` the response is the same for the record before and after the write.
- `splice` mutates the array loaded from the store. It is modelled on a sequence value, because that array is a private copy, so no aliasing is lost.
- Only SUPERUSER is named by the flow; the role enumeration is not part of this model, and every other role is `Regular`. A `RegisterInput` carries the role the stored document takes, whether the input's own role or the schema default.
- The user document's other fields (timestamps, profile data) pass through the projection untouched and are not modelled.
- A lookup by id that finds nothing and is then dereferenced is a generic fault in the code. It appears as the error `MissingUser`.
- The code of `validateTOTP` writes `isTOTP` only when it was false. On store values that write is indistinguishable from setting it unconditionally, so the contract states the resulting store only.
- Error message texts are not modelled, only the error kinds.
- Faults of the store and of the collaborators are not modelled: every store call, the signer, the QR renderer and the generators are total. So the outcomes where a write has happened and a later call then fails are not represented: `createTOTP` saving the secret and then failing to render the QR code, `validateTOTP` setting `isTOTP` and then failing to sign, and `validateRecoveryCode` saving the shortened list and then failing to sign, which uses up a code without issuing a token.
- The GraphQL output type through which `createRecoveryCodes` returns the full record is not part of this model.
