# TeamSafe core, modelled in Dafny

TeamSafe shares secrets inside a company. Each user has an RSA-OAEP key pair
made in the desktop client. The private key stays on the client, in
`localStorage`, sealed by an envelope built from the user's password (PBKDF2
and AES-GCM). A sender encrypts a secret for the receiver's public key. The
relay server stores only that ciphertext, together with who sent it, who
receives it, whether it was read and when it was made. Users belong to the
company of their email domain. They authenticate with a bearer JWT after
verifying their email.

This project models the following parts of the system:

- `crypto.js`: the byte/base64 codec, the message wrappers and the
  private-key envelope. Web Crypto, `TextEncoder` and `TextDecoder` are
  function-typed fields of a `WebCrypto` record. What the code relies on them
  for is stated as predicates, which the lemmas take as preconditions:
  - AEAD correctness, key binding and integrity;
  - a collision-free KDF. This idealises the computational collision
    resistance of PBKDF2; real PBKDF2 with HMAC-SHA-256 does have collisions,
    for example between a password longer than 64 bytes and its SHA-256 digest;
  - OAEP inversion;
  - the UTF-8 round trip.
- `btoa` / `atob`: `btoa` is section 4 of RFC 4648. `atob` is the WHATWG
  "forgiving-base64 decode": ASCII whitespace is removed, and one or two
  trailing `=` are dropped when the length is a multiple of 4. It fails on a
  length of 1 modulo 4 or on a character outside the alphabet.
- The Express controllers and the `authenticate` middleware, over an
  in-memory `Database` class that stands in for Prisma:
  - The tables are sequences with auto-increment ids.
  - `Valid()` holds the invariants the schema gives: distinct ids, unique
    emails, unique domains, and foreign keys that resolve.
  - bcrypt and `jsonwebtoken` are function parameters, with the laws
    `HashVerifies` and `SignedTokensVerify` where a lemma needs them.
- `api.js`: request-header construction, response settling, and
  `AuthService` over a `Storage` class (a string map).
- `DashboardPage.jsx`: the dashboard state as a class, with its handlers as
  methods and its list helpers as functions.

The network, the clock and randomness are parameters:

- The settled result of each `fetch` is an argument of the handler that
  awaits it.
- `createdAt` is a `now` argument.
- `crypto.randomBytes` is a byte argument.
- `getRandomValues` reads a `RandomSource`: a fixed stream of bytes with a
  cursor, so every draw reads stream positions no earlier draw read. The byte
  values themselves may repeat; nothing is assumed about the stream.

Three readings of the code are worth stating:

- **Email domain.** `email.split('@')[1]` is the text between the first and
  the second `@`, not everything after the first `@`.
  `AuthController.EmailDomainOf` states both cases.
- **Login and verification.** `login` does not refuse an unverified user
  (that check is commented out). The middleware does refuse one, with 403.
  `AuthController.LoginTokenAuthenticates` states the combination.
- **Secret recipients.** `createSecret` accepts any stored user as the
  receiver, including one from another company.

## Model

| member | source | states |
|---|---|---|
| Octets.Latin1 | frontend/src/services/crypto.js:164-167 | the binary string has one character per byte, whose code is that byte |
| Octets.CharCodes | frontend/src/services/crypto.js:178-181 | the array has the string's length and byte i is the code of character i |
| Base64.Encode | frontend/src/services/crypto.js:168 | the encoding has 4 characters per started group of 3 bytes, padded to a multiple of 4 |
| Base64.Btoa | frontend/src/services/crypto.js:168 | `btoa` succeeds exactly on strings whose characters are all below 256 |
| Base64.Atob | frontend/src/services/crypto.js:177 | a successful `atob` yields a Latin-1 binary string |
| Base64.AtobEncode | frontend/src/services/crypto.js:162-183 | `atob` inverts the RFC 4648 encoding of any byte string |
| Base64.AtobRejectsForeignCharacter | frontend/src/services/crypto.js:177 | `atob` throws on any character that is not in the alphabet, not whitespace and not `=` |
| Base64.AtobRejectsLengthOneModFour | frontend/src/services/crypto.js:177 | `atob` throws when the whitespace-free input has length 1 modulo 4 |
| CryptoService.BufferToBase64 | frontend/src/services/crypto.js:162-169 | the loop builds the Latin-1 string of the bytes in order, and the result is their RFC 4648 encoding |
| CryptoService.DecodeBuffer | frontend/src/services/crypto.js:176-183 | fails exactly when `atob` throws; otherwise has the decoded string's length, and byte i is character code i |
| CryptoService.Base64ToBuffer | frontend/src/services/crypto.js:176-183 | decodes with `atob`, then fills the array; the result is exactly `DecodeBuffer` |
| CryptoService.CharCodeArray | frontend/src/services/crypto.js:178-181 | the loop fills a fresh array whose byte i is the code of character i |
| CryptoService.BufferRoundTrip | frontend/src/services/crypto.js:162-183 | `base64ToBuffer(bufferToBase64(b)) == b` for every byte string, including the empty one and every byte value |
| CryptoService.GenerateKeyPair | frontend/src/services/crypto.js:8-42 | any failure becomes "Failed to generate encryption keys"; under the generator law a success is a valid pair |
| CryptoService.EncryptWithPublicKey | frontend/src/services/crypto.js:100-124 | succeeds exactly when the JWK imports and RSA-OAEP encryption of the UTF-8 bytes succeeds, and then returns the base64 of that ciphertext; every failure collapses into "Failed to encrypt data"; the result holds no `"` |
| CryptoService.DecryptWithPrivateKey | frontend/src/services/crypto.js:132-155 | succeeds exactly when the key imports, the text is base64 and RSA-OAEP accepts the bytes, and then yields the UTF-8 decoding of the plaintext; every failure (import, malformed base64, decryption) collapses into "Failed to decrypt data" |
| CryptoService.MessageRoundTrip | frontend/src/services/crypto.js:100-155 | for a valid pair, decrypting what `encryptWithPublicKey` produced returns the message; encryption fails only when RSA-OAEP refuses |
| CryptoService.StorageObjectRoundTrip | frontend/src/services/crypto.js:239-246 | reading the stored JSON back gives the salt, IV and ciphertext fields that were written |
| CryptoService.StorePrivateKey | frontend/src/services/crypto.js:191-251 | draws a 16-byte salt and then a 12-byte IV from the next unread stream positions; writes the one entry `securePrivateKey`, replacing any earlier one, and changes no other key |
| CryptoService.RetrievePrivateKey | frontend/src/services/crypto.js:258-322 | null when no entry is stored; a result implies the entry parsed |
| CryptoService.StoreThenRetrieve | frontend/src/services/crypto.js:207-312 | storing under a password and retrieving with the same password gives the private key back (same KDF parameters on both sides) |
| CryptoService.RetrieveWithWrongPassword | frontend/src/services/crypto.js:300-317 | any other password yields null, not an exception |
| CryptoService.RetrieveRejectsForgery | frontend/src/services/crypto.js:300-317 | a ciphertext that is not an encryption under the password's key yields null |
| CryptoService.RetrieveRejectsMalformed | frontend/src/services/crypto.js:266-321 | a record with a field that is not base64 yields null |
| BrowserStorage.RandomSource.GetRandomValues | frontend/src/services/crypto.js:194 | returns the next n bytes of the random stream and moves past them |
| Strings.Split | backend/src/controllers/auth.controller.js:19 | `split` gives at least one field, and no field holds the separator |
| Strings.SecondField | backend/src/controllers/auth.controller.js:19 | `split(d)[1]` is the text between the first and the second separator |
| Strings.Hex | backend/src/controllers/auth.controller.js:51 | hex encoding has two lower-case hex digits per byte |
| Strings.UnhexHex | backend/src/controllers/auth.controller.js:51 | hex encoding is invertible, so distinct token bytes give distinct tokens |
| Tables.FirstIndex | backend/src/controllers/auth.controller.js:25-27 | a lookup finds the first matching row, or reports that no row matches |
| Tables.LookupFindsStoredUser | backend/src/controllers/auth.controller.js:91-93 | with unique ids and emails, a lookup by a stored user's id or email finds that user |
| Tables.Database.CreateCompany | backend/src/controllers/auth.controller.js:39-44 | appends one company with the next id, keeps domains unique and keeps the database valid |
| Tables.Database.CreateUser | backend/src/controllers/auth.controller.js:54-64 | appends one unverified user with the next id, keeps emails unique and keeps the database valid |
| Tables.Database.UpdateUser | backend/src/controllers/auth.controller.js:153-159 | replaces one row that keeps its id and email; everything else stays, and the database stays valid |
| Tables.Database.CreateSecret | backend/src/controllers/secret.controller.js:26-32 | appends one unread record with the next id and `createdAt` now; everything else stays |
| Tables.Database.UpdateSecret | backend/src/controllers/secret.controller.js:163-166 | replaces one record that keeps its id and parties; everything else stays |
| AuthMiddleware.BearerToken | backend/src/middleware/auth.middleware.js:15 | the token is the text after `Bearer ` up to the next space |
| AuthMiddleware.BearerTokenRoundTrip | backend/src/middleware/auth.middleware.js:15 | the header the client builds, `Bearer <token>`, yields exactly its token |
| AuthMiddleware.TokenHolder | backend/src/middleware/auth.middleware.js:18-27 | a user is found only for a bearer header whose token verifies to that user's id; for a bearer header whose token verifies, the result is exactly the lookup of that id; with no header, another scheme or a token that fails, nobody is found |
| AuthMiddleware.Decide | backend/src/middleware/auth.middleware.js:10-44 | a missing or non-Bearer header gives 401 "No token provided"; a token that does not verify or names no user gives 401 "Invalid token"; an unverified user gives 403; admission carries exactly id, email and companyId |
| AuthMiddleware.ClientTokenAdmitted | backend/src/middleware/auth.middleware.js:10-41 | a client-signed request is admitted exactly when its token verifies to a stored, verified user, and is attributed to that id |
| AuthMiddleware.Authenticate | backend/src/middleware/auth.middleware.js:5-45 | `next` is called exactly on admission, with `req.user` set; otherwise the decided status and message are sent and `req.user` is untouched |
| AuthController.EmailDomain | backend/src/controllers/auth.controller.js:19 | the domain holds no `@` |
| AuthController.EmailDomainOf | backend/src/controllers/auth.controller.js:19-22 | the domain of `local@domain` is `domain`, a second `@` ends it, and an address without `@` has none |
| AuthController.CompanyName | backend/src/controllers/auth.controller.js:42 | the company name is the domain up to its first dot |
| AuthController.RegistrationError | backend/src/controllers/auth.controller.js:14-31 | checks run in order (missing field, bad email, existing email), each giving its own message once the earlier ones pass; registration passes exactly when all three pass; names are optional |
| AuthController.Register | backend/src/controllers/auth.controller.js:9-78 | errors give 400 and write nothing; otherwise at most one company per domain, named by its first label; the new user is linked to it, stores the hashed password, is unverified and holds a 64-character token |
| AuthController.Login | backend/src/controllers/auth.controller.js:81-136 | 400 on a missing field; success exactly when the email is stored and the password compares; every other failure is 401 "Invalid credentials"; the reply omits the password |
| AuthController.LoginFailuresAlike | backend/src/controllers/auth.controller.js:95-104 | an unknown email and a wrong password get the identical answer |
| AuthController.RegisterThenLogin | backend/src/controllers/auth.controller.js:48-104 | a freshly registered user logs in with the same email and password |
| AuthController.LoginTokenAuthenticates | backend/src/controllers/auth.controller.js:115-119 | the issued token passes the middleware exactly when the email is verified, and names the same user |
| AuthController.VerifyEmail | backend/src/controllers/auth.controller.js:139-166 | an unknown token gives 400 and changes nothing; otherwise the holder becomes verified and loses the token, and nothing else changes |
| AuthController.VerificationTokenSpent | backend/src/controllers/auth.controller.js:144-159 | after a verification, nobody holds the token, so the same link then fails with 400 |
| UserController.CompanyUsers | backend/src/controllers/user.controller.js:11-23 | exactly the users of the caller's company other than the caller, projected to id, email, names and public key (no password) |
| UserController.CompanyUsersDistinct | backend/src/controllers/user.controller.js:11-23 | when user ids are unique, as the table's primary key makes them, each colleague is listed once |
| UserController.GetUserProfile | backend/src/controllers/user.controller.js:33-64 | 404 when the caller has no row; otherwise 200 with the caller's id, email, names and verification flag, and the id, name and domain of the caller's own company |
| UserController.Updated | backend/src/controllers/user.controller.js:73-93 | names change only when provided (null included); the password changes only when both passwords are given, and then to the hash of the new one; all other fields stay |
| UserController.UpdateUserProfile | backend/src/controllers/user.controller.js:67-115 | a wrong current password gives 401 and writes nothing, names included; a missing row gives 500; otherwise exactly `Updated` is written and the reply omits the password |
| UserController.EmptyUpdateKeepsRow | backend/src/controllers/user.controller.js:73-77 | an update that sets no field leaves the row as it was |
| UserController.NewPasswordLogsIn | backend/src/controllers/user.controller.js:80-93 | after a password change, the new password logs in |
| SecretController.CreateSecret | backend/src/controllers/secret.controller.js:6-42 | a missing field gives 400 and an unknown receiver gives 404, with no write; otherwise exactly one record is appended, its sender is the authenticated caller, and 201 carries its id |
| SecretController.AnyOtherKindSelectsBoth | backend/src/controllers/secret.controller.js:53-65 | any `type` other than `sent` or `received` selects the union of the two |
| SecretController.Filter | backend/src/controllers/secret.controller.js:53-65 | keeps exactly the records the `where` clause selects, each as often as stored |
| SecretController.SortNewestFirst | backend/src/controllers/secret.controller.js:87-89 | the result is ordered by `createdAt`, descending, and is a permutation of the input |
| SecretController.PartyAt | backend/src/controllers/secret.controller.js:70-85 | the `sender`/`receiver` of a record is the stored user with that id, cut down to id, email and names |
| SecretController.GetSecrets | backend/src/controllers/secret.controller.js:45-97 | exactly the caller's selected records, newest first, each the caller sent or received; its sender and receiver are the stored users the record names, cut down to id, email and names |
| SecretController.GetSecretById | backend/src/controllers/secret.controller.js:100-141 | 404 for an unknown id; 403 exactly when the caller is neither sender nor receiver; otherwise 200 with the record the lookup found and its stored sender and receiver, cut down to id, email and names |
| SecretController.ByIdIsListed | backend/src/controllers/secret.controller.js:127-134 | a record `getSecretById` shows the caller also appears in the caller's `all` list |
| SecretController.AfterMark | backend/src/controllers/secret.controller.js:153-166 | the addressed record becomes read when the caller is its receiver; otherwise the table is unchanged; only `isRead` can change, and only on that record |
| SecretController.MarkIdempotent | backend/src/controllers/secret.controller.js:163-166 | marking twice leaves the table as marking once |
| SecretController.MarkAsRead | backend/src/controllers/secret.controller.js:144-176 | 404 if missing and 403 unless the caller is the receiver; the table becomes `AfterMark`; users and companies stay |
| ApiService.PrepareRequest | frontend/src/services/api.js:10-23 | the URL is the API base followed by the endpoint; caller headers override Content-Type; Authorization is `Bearer <token>` exactly when a token is stored |
| ApiService.Settle | frontend/src/services/api.js:31-37 | an ok response yields its data; any other yields an error with the server's message, or "Something went wrong", never empty |
| ApiService.IsLoggedIn | frontend/src/services/api.js:99-101 | true exactly when a non-empty `token` is stored |
| ApiService.GetCurrentUser | frontend/src/services/api.js:107-110 | null exactly when `user` is absent or empty |
| ApiService.Login | frontend/src/services/api.js:63-76 | `token` and `user` are written only when the reply carries a token, and the session is then logged in |
| ApiService.Logout | frontend/src/services/api.js:90-93 | removes exactly `token` and `user`; every other key, such as `securePrivateKey`, stays |
| ApiService.EnvelopeSurvivesLogout | frontend/src/services/api.js:90-93 | after logout the private-key envelope opens exactly as before |
| Dashboard.GetInitials | frontend/src/renderer/pages/DashboardPage.jsx:195-199 | the upper-cased first letter of the first name (or `?`), then that of the last name when present; length 1 or 2 |
| Dashboard.CountUnread | frontend/src/renderer/pages/DashboardPage.jsx:202-203 | zero exactly when no secret is unread and received by the user |
| Dashboard.UnreadCount | frontend/src/renderer/pages/DashboardPage.jsx:202-203 | zero without a profile; otherwise the user's unread received count |
| Dashboard.MarkedRead | frontend/src/renderer/pages/DashboardPage.jsx:163-165 | only the records with the id become read; the length and all other records are unchanged |
| Dashboard.MarkedReadIdempotent | frontend/src/renderer/pages/DashboardPage.jsx:163-165 | marking the same secret read again changes nothing |
| Dashboard.MarkingUnreadLowersCount | frontend/src/renderer/pages/DashboardPage.jsx:163-203 | with distinct ids, marking one unread received secret read lowers the unread count by exactly one |
| Dashboard.AfterCheck | frontend/src/renderer/pages/DashboardPage.jsx:98-111 | nothing happens without a profile; the list changes only to a strictly longer fetched list |
| Dashboard.PolledAsWritten | frontend/src/renderer/pages/DashboardPage.jsx:51-61 | the polling tick as installed at mount never changes the list |
| Dashboard.PollingMissesNewSecrets | frontend/src/renderer/pages/DashboardPage.jsx:51-111 | a longer list is taken by a check against the current state but ignored by the tick as written |
| Dashboard.DashboardPage.LoadDashboardData | frontend/src/renderer/pages/DashboardPage.jsx:63-85 | on success the profile, users and secrets are replaced and the error is cleared; on failure the error is set and the data stay |
| Dashboard.DashboardPage.CheckNewSecrets | frontend/src/renderer/pages/DashboardPage.jsx:98-111 | does nothing without a profile; replaces the list only by a strictly longer one, so it never shrinks |
| Dashboard.DashboardPage.OpenShareModal | frontend/src/renderer/pages/DashboardPage.jsx:114-118 | selects the user, clears the text and opens the dialog |
| Dashboard.DashboardPage.ShareSecret | frontend/src/renderer/pages/DashboardPage.jsx:121-150 | nothing happens without text or a selected user; what is sent is the receiver's id and the ciphertext for their public key, never the text; each failure sets its error and clears `sending` |
| Dashboard.DashboardPage.OpenViewModal | frontend/src/renderer/pages/DashboardPage.jsx:153-192 | mark-read is requested only for an unread secret the user received, and is applied locally on success; decryption is tried only for received secrets, and errors without a session `privateKey` |

## Left out

- Web Crypto, `TextEncoder` and `TextDecoder` are abstract functions. Only the laws named above are assumed, as lemma preconditions. No plaintext size limit is modelled, since the code enforces none.
- UTF-8 is abstract (`encodeText`/`decodeText`).
- CryptoService.RetrieveWithWrongPassword: holds only under the collision-free KDF law. With real PBKDF2 a colliding password would also open the envelope.
- Strings are sequences of Unicode code points (Dafny `char`s), not of UTF-16 code units. A lone surrogate cannot be represented, and a character above U+FFFF is one `char` where `charAt` and `charCodeAt` see two units. So `GetInitials` on a name starting with such a character yields the whole character, where JavaScript yields half of a surrogate pair.
- BrowserStorage.RandomSource.GetRandomValues: only promises that each draw reads fresh stream positions. Distinct salts, IVs and ciphertexts across two stores are not modelled, because no law on the byte values of the stream is assumed.
- JSON:
  - The envelope is written and parsed in the one layout `JSON.stringify` gives for three base64 fields. Any other text counts as malformed, including whitespace variants that `JSON.parse` would accept.
  - Request and response bodies are datatypes, not JSON text.
- ApiService.GetCurrentUser: returns the stored user text; `JSON.parse` of it is not modelled. `AuthService.login` likewise takes the user as its JSON text.
- Dashboard.GetInitials: upper-cases ASCII letters only. Full Unicode case mapping (which can lengthen a string) is not modelled.
- bcrypt:
  - The random salt of `bcrypt.hash` is part of the abstract hash function.
  - The cost factor (10) is not modelled.
- JWT expiry (`JWT_EXPIRES_IN`) and the signing secret live inside the abstract `sign`/`verify`.
- Prisma and Express:
  - The catch-all 500 answers to database failures are not modelled. These are "Failed to register user", "Failed to login", "Failed to verify email", "Failed to fetch users/profile/secrets/secret", "Failed to share secret" and "Failed to update secret".
  - The one 500 the code itself provokes, a profile update for a missing user, is modelled.
- The `Database` create methods require the uniqueness and foreign keys the controllers check just before. Concurrent requests racing past those checks are not modelled.
- SecretController.CreateSecret: requires that the caller is a stored user, which the middleware has just established. Deletion in between is not modelled.
- SecretController.GetSecretById: takes the id after `Number()`. A non-numeric id (NaN, which fails in Prisma) is not modelled. Likewise, a `receiverId` of the wrong JSON type is not modelled.
- SecretController.MarkAsRead: takes the id after `Number()` as well, both for the lookup and for the update. A non-numeric id (NaN) is not modelled.
- SecretController.SortNewestFirst: the order among records with equal `createdAt`, which the database leaves open, is not fixed by the contract.
- AuthController.VerificationTokenSpent: assumes no other user holds the same token. Two 256-bit random tokens colliding is not modelled.
- CryptoService.StorePrivateKey: its catch ("Failed to securely store private key") cannot be reached in the model, because the abstract primitives and the encoding of bytes never fail.
- Async behaviour and side channels are not modelled:
  - `fetch`;
  - `Promise.all`;
  - the 15-second interval timing;
  - `loading` and `refreshing` spinners beyond their final values;
  - `handleRefresh`;
  - `console` logging;
  - date formatting.
- The endpoint wrappers of `AuthService.register`/`verifyEmail`, `UserService` and `SecretService` are not modelled. Each is one request to a fixed path, covered by `PrepareRequest` and `Settle`.
- The React rendering, the other pages, the Electron shell and the build files are not part of this model. The session `privateKey` that `OpenViewModal` reads is written by the login page, which is not part of this model.

## Findings

| source | as written | input that shows it | evidently intended | confidence | as-written member | corrected member |
|---|---|---|---|---|---|---|
| frontend/src/renderer/pages/DashboardPage.jsx:51-61 | the interval is installed once, by an effect with no dependencies, so each tick calls the `checkNewSecrets` of the first render. That render sees `userProfile` as null, so the check returns at once | any tick after the profile has loaded and a colleague has shared a new secret: the fetched list is longer, yet the list is not updated | each poll checks against the current profile and list, and picks up a longer list | high; not executed | Dashboard.PolledAsWritten | Dashboard.DashboardPage.CheckNewSecrets |
