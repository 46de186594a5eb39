# Traveltastick server core in Dafny

A model of the server side of the traveltastick sticker-collecting web
application. Users sign up and sign in with WebAuthn passkeys. They open
packets of randomly drawn stickers into a deck, put stickers into an album,
discard them, or trade them with other users.

The model covers these parts of the program:

- the millisecond date helpers and the hours/minutes/seconds breakdown (`Dates`);
- the sticker-title string transforms used for image lookup and heading ids (`StickerTitles`);
- the packet draw loop, with `Math.random` as a sequence of rolls (`Packets`);
- the database tables as records in a store of maps, with the keys, references and unique indexes of the schema as invariants (`Schema`);
- the store operations the handlers call (`Db`);
- the session cookie lifecycle (`Sessions`);
- the registration and authentication wrappers around the WebAuthn library (`WebAuthn`);
- the seven passkey endpoints (`RegistrationRoutes`, `AuthenticationRoutes`, `CredentialRoutes`);
- the deck endpoints and the deck page's form actions (`Collection`);
- properties spanning several requests (`Ceremonies`).

Every passkey handler is a pure function from the store, the cookie jar,
the request session and the request body to a reply, a new store and a new
cookie jar. The deck handlers touch no cookie: they return a reply and a
new store, and `openPacket`, whose draw loop is a `while` loop, is a method.
A reply is `Json(body)` or `Error(status, message)`.

A request body is either parsed or `Unparsable`. `request.json()` and
`request.formData()` reject a body that is not in their format. Nothing
catches that rejection, so the handler answers 500 and keeps whatever it
had already written: a spent challenge, or a newly created registration.
The JSON `null` body is kept apart. Reading `data.ownedStickerId` of it
throws, which also answers 500, while `body?.userName` reads it as
`undefined`.

Dates are integer milliseconds since the epoch. Random values are
parameters: session ids, user handles, challenges and the `Math.random`
rolls. The WebAuthn library's verification is a function parameter that
either returns a verdict or throws. `Common`, `JsValues` and `Routes` hold
shared definitions: the reply type, the JavaScript values a JSON body can
carry, `toString`, `Number.parseInt`, and the handlers' error messages.

`src/lib/server/db/index.ts` defines only `getStickers`. The other store
operations (`getAndClearChallenge`, `createUser`, `transfer` and the rest)
are modelled from their names and from the tables of
`src/lib/server/db/schema.ts`. A write that would break a primary key or a
foreign key of the schema fails. So does a write that would put a value
outside the signed 32-bit range into an `integer` column. Most handlers then
answer 500, which is what the thrown database error becomes. Account
registration is the exception: `createUser` answers `null` on failure, and
the handler turns that into 400. Wherever the operations' exact effects are
assumptions, "## Left out" says so.

The credential counter column is such an `integer`, but a WebAuthn signature
counter is an unsigned 32-bit number. A counter of 2^31 or more therefore
cannot be stored. Registration then answers 400, while adding a passkey or
signing in answers 500. Likewise, an id a deck request names is compared
with an `integer` column. An id outside that range makes the lookup raise,
and the handler answers 500 rather than "Invalid ID".

Three facts about the code shape the model:

- The completion handlers spend the pending challenge as soon as the session checks pass, before they read the body or ask the verifier. A failed completion therefore still changes the store: its challenge is gone.
- The packet draw is uniform, with no daily window and no weighting, and `openPacket` does no eligibility check.
- The deck page imports a `userId` that its module does not export. The acting user is a parameter of the page actions.

## Model

| member | source | states |
|---|---|---|
| Dates.AddMilliseconds | src/lib/server/dates/index.ts:13-15 | the result lies exactly `milliseconds` after the given date |
| Dates.AddSeconds | src/lib/server/dates/index.ts:9-11 | adding seconds moves the date by 1000 ms per second |
| Dates.AddMinutes | src/lib/server/dates/index.ts:5-7 | adding minutes moves the date by 60000 ms per minute |
| Dates.AddHours | src/lib/server/dates/index.ts:1-3 | adding hours moves the date by 3600000 ms per hour |
| Dates.AddMillisecondsAdditive | src/lib/server/dates/index.ts:13-15 | two additions equal one addition of the sum, and adding `-a` undoes adding `a` |
| Dates.GetTimeUntil | src/lib/server/dates/index.ts:17-39 | all zeros when `until` is not after `reference`; otherwise minutes and seconds lie in 0..59, hours is non-negative, and together they make up the whole seconds between the two dates |
| Dates.SubSecondIsZero | src/lib/server/dates/index.ts:28-38 | a gap of less than one second reads as all zeros |
| Dates.NormalisedUnique | src/lib/server/dates/index.ts:28-32 | two breakdowns with minutes and seconds in 0..59 and the same total seconds are equal, so the breakdown is the only one possible |
| StickerTitles.RemoveSingleQuotes | src/lib/stickers/index.ts:23 | the result has no `'`, is no longer than the title, keeps the count of every other character, and is the title itself when it had no `'` |
| StickerTitles.RemoveSingleQuotesAppend | src/lib/stickers/index.ts:23 | stripping the quotes of two joined strings is joining their stripped forms, so the remaining characters keep their order |
| StickerTitles.RemoveSingleQuotesIdempotent | src/lib/stickers/index.ts:23 | stripping quotes twice is stripping them once |
| StickerTitles.ImageKey | src/lib/stickers/index.ts:23-24 | the key is the stickers image directory, then exactly the title with its single quotes removed, then `.jpg` |
| StickerTitles.ImageKeyInjective | src/lib/stickers/index.ts:23-24 | two titles give the same key exactly when they agree once single quotes are removed |
| StickerTitles.GetStickerImageUrl | src/lib/stickers/index.ts:19-26 | the URL mapped under the title's key when the key exists, and `""` otherwise |
| StickerTitles.ImageUrlIgnoresSingleQuotes | src/lib/stickers/index.ts:23-25 | inserting a single quote anywhere in a title does not change its URL |
| StickerTitles.GetStickerHeadingId | src/lib/stickers/index.ts:28-30 | same length as the title; each space, `'` or `"` becomes `_`, every other character is kept, and none of the three remains |
| StickerTitles.HeadingIdIdempotent | src/lib/stickers/index.ts:29 | building the heading id of a heading id changes nothing |
| Packets.RollToIndex | src/lib/server/stickers/index.ts:14 | a roll in [0, 1) picks an index inside the catalogue |
| Packets.DrawGrowsByAtMostOne | src/lib/server/stickers/index.ts:13-20 | one more roll adds at most one id to those drawn |
| Packets.DrawnIdsMonotone | src/lib/server/stickers/index.ts:13-20 | drawing more rolls never loses an id |
| Packets.DrawnIdsInCatalogue | src/lib/server/stickers/index.ts:14-15 | every drawn id is an element of the catalogue |
| Packets.GeneratePacket | src/lib/server/stickers/index.ts:5-23 | a packet exists exactly when the rolls draw two distinct ids; it then holds exactly two ids, without duplicates, all from the catalogue, and the loop stops at the first roll that completes it |
| Packets.PacketNeedsTwoDistinctIds | src/lib/server/stickers/index.ts:13-20 | the loop can only finish when the catalogue holds at least two distinct ids |
| JsValues.OptionalToString | src/routes/api/auth/begin-registration/+server.ts:18 | `undefined` and `null` give no string; a string gives itself; a safe integer gives decimal text that `Number.parseInt` reads back as that number |
| JsValues.IntToStringRoundTrip | src/routes/deck/+page.server.ts:26 | `Number.parseInt` of an integer's decimal text is that integer |
| Db.InsertSession | src/lib/server/db/schema.ts:36-45 | inserting a session row succeeds exactly when its id is free and every id it refers to exists; the store invariants are kept |
| Db.GetAndClearChallenge | src/routes/api/auth/complete-registration/+server.ts:19-27 | the pending challenge with its expiry is returned when both are stored, and the session's challenge fields are cleared in every case |
| Db.ChallengeSingleUse | src/routes/api/auth/complete-authentication/+server.ts:13-17 | a challenge fetched once cannot be fetched again |
| Db.CreateRegistration | src/lib/server/auth/registration.ts:16-17 | a new registration row with the given handle under a fresh serial id |
| Db.CreateUser | src/routes/api/auth/complete-registration/+server.ts:60-64 | fails exactly when the session or registration is missing, the credential id is taken, the counter does not fit the 32-bit `integer` column, or another session holds the registration; on success the user, the credential and the session's binding are created and the registration is consumed |
| Db.CreateUserKeepsValid | src/lib/server/db/schema.ts:9-45 | creating a user keeps every key, reference and single-identity invariant of the schema |
| Db.SaveUserAuthentication | src/routes/api/auth/complete-authentication/+server.ts:48 | fails exactly when the credential or user is missing or the new counter does not fit the 32-bit `integer` column; on success the credential's counter, backup flags and last use are updated and the session is bound to the user and credential |
| Db.CreateCredential | src/routes/api/auth/complete-credential-creation/+server.ts:51 | fails exactly when the user is missing, the credential id is taken or the counter does not fit the 32-bit `integer` column; on success exactly one credential, owned by the user, is added |
| Db.DeleteCredential | src/lib/server/db/schema.ts:40 | fails exactly when some session still refers to the credential; otherwise exactly that credential is removed |
| Db.AddToAlbum | src/routes/api/deck/add-to-album/+server.ts:34 | only that owned sticker is flagged as in the album; the album stays free of duplicates when it was not already there |
| Db.Discard | src/routes/api/deck/discard/+server.ts:32 | exactly that owned sticker is removed and the invariants are kept |
| Db.Transfer | src/routes/api/deck/trade/+server.ts:49 | fails exactly when the recipient is unknown; otherwise only that copy's owner and received time change |
| Db.AddToDeck | src/routes/deck/+page.server.ts:51 | fails exactly when the user or one of the stickers is missing; otherwise one new deck copy per id, in order, under fresh ids, and nothing else changes |
| Sessions.SetCookie | src/lib/server/sessions/index.ts:80-88 | the session cookie holds the session id and the given expiry; every other cookie keeps its name and value |
| Sessions.StartRegistrationSession | src/lib/server/sessions/index.ts:14-28 | succeeds exactly when the new id is free and the registration exists; the row holds the registration, the challenge and its expiry, no user; it expires 168 hours after creation, and the cookie carries the id and that expiry |
| Sessions.StartAuthenticationSession | src/lib/server/sessions/index.ts:30-43 | as for registration, with no registration and no user in the row |
| Sessions.SetSessionChallenge | src/lib/server/sessions/index.ts:45-47 | the session's challenge and expiry are replaced; no other session or table changes |
| Sessions.SetThenConsumeChallenge | src/lib/server/sessions/index.ts:45-47 | after two challenges are set, the one consumed is the second, with its own expiry |
| Sessions.EndSession | src/lib/server/sessions/index.ts:75-78 | the session cookie and the session row are both gone; every other cookie and every other session row keeps its value, and no other table changes |
| Sessions.EndSessionIdempotent | src/lib/server/sessions/index.ts:75-78 | ending a session a second time changes nothing |
| Sessions.GetSession | src/lib/server/sessions/index.ts:49-73 | no cookie: no session and no change; a stored, unexpired session named by the cookie is always found, with no change; a returned session is exactly that one; otherwise the cookie and any expired row are removed |
| Sessions.GetSessionSettles | src/lib/server/sessions/index.ts:49-73 | a second lookup at the same time gives the same answer and changes nothing more |
| WebAuthn.Descriptors | src/lib/server/auth/registration.ts:37-40 | exactly one `public-key` descriptor per given credential id |
| WebAuthn.GetCredentialRegistrationOptions | src/lib/server/auth/registration.ts:25-44 | the options require a resident key, prefer user verification, use the configured algorithms and timeout, and exclude exactly the given ids, or none when none are given |
| WebAuthn.GetAuthenticationOptions | src/lib/server/auth/authentication.ts:7-15 | the options prefer user verification, use the configured timeout and carry no allow-list |
| WebAuthn.GetOrCreateAccountRegistration | src/lib/server/auth/registration.ts:11-23 | with an id, the stored registration and no change; without one, exactly one new registration with the new handle |
| WebAuthn.RegistrationChecks | src/lib/server/auth/registration.ts:46-56 | the verifier is asked for the expected challenge, relying party and origin, and never requires user verification |
| WebAuthn.VerifyCredentialRegistration | src/lib/server/auth/registration.ts:46-62 | the verifier's result when it returns, and nothing when it throws |
| WebAuthn.AuthenticationChecks | src/lib/server/auth/authentication.ts:26-37 | the verifier is given the stored public key and counter of the credential the response names |
| WebAuthn.VerifyAuthentication | src/lib/server/auth/authentication.ts:17-49 | nothing for an unknown credential or a thrown verification; otherwise the verdict with the stored owner of the credential |
| WebAuthn.UnknownCredentialSkipsVerifier | src/lib/server/auth/authentication.ts:19-24 | for an unknown credential the answer does not depend on the verifier at all |
| RegistrationRoutes.BeginRegistration | src/routes/api/auth/begin-registration/+server.ts:7-32 | a signed-in session is refused with no change; the session's registration is reused and only its challenge is overwritten, expiring one timeout from now; without one, a registration is created before the body is read and stays even when the request then fails; success starts a new registration session and changes no user, credential or other session; a body that is not JSON answers 500 |
| RegistrationRoutes.CredentialFromRegistration | src/routes/api/auth/complete-registration/+server.ts:49-58 | `canBeBackedUp` holds exactly for a multi-device credential; the id, key, counter and backup state are copied |
| RegistrationRoutes.CompleteRegistration | src/routes/api/auth/complete-registration/+server.ts:6-67 | no registration in progress or a missing registration fails with no change; otherwise the challenge is spent, every failure leaves only that, a body that is not JSON answers 500 and any other failure 400; success exactly when verification passes and the user can be created, and it then creates the user and credential bound to this session |
| AuthenticationRoutes.BeginAuthentication | src/routes/api/auth/begin-authentication/+server.ts:6-28 | a signed-in session is refused; without a session a new authentication session is started; otherwise only its challenge is overwritten |
| AuthenticationRoutes.CredentialUpdateFrom | src/routes/api/auth/complete-authentication/+server.ts:41-46 | the saved update names the credential the response named and carries the new counter; `canBeBackedUp` holds exactly for a multi-device credential |
| AuthenticationRoutes.CompleteAuthentication | src/routes/api/auth/complete-authentication/+server.ts:6-51 | no session fails unchanged; the challenge is spent first and a failure keeps only that; a body that is not JSON answers 500; an unknown and a rejected passkey give the same message; success exactly when the signature verifies and the sign-in is saved, and it saves the update for the stored owner |
| AuthenticationRoutes.SignInBindsStoredOwner | src/lib/server/auth/authentication.ts:41-44 | after a sign-in the session belongs to the stored owner of the credential used, never to a value from the request, and records that credential as the one signed in with |
| CredentialRoutes.BeginCredentialCreation | src/routes/api/auth/begin-credential-creation/+server.ts:7-33 | 401 without a signed-in user; 400 without a user handle; then a body that is not JSON answers 500 with no change; otherwise every passkey the user has is excluded, only the existing session's challenge is set, and no session is created |
| CredentialRoutes.CompleteCredentialCreation | src/routes/api/auth/complete-credential-creation/+server.ts:6-54 | 401 before any challenge is spent; failures keep only the spent challenge, with 500 for a body that is not JSON and 400 for a failed check; success exactly when verification passes and the passkey is new, and it adds one credential owned by the session's user |
| CredentialRoutes.DeleteCredential | src/routes/api/auth/delete-credential/+server.ts:4-36 | errors change nothing; a body that is not JSON answers 500; only the caller's own passkeys can be named; the passkey the session signed in with survives; success exactly when the three guards pass and no other session refers to the credential, and it removes exactly that credential |
| Collection.NumberField | src/routes/api/deck/add-to-album/+server.ts:14-20 | a number passes; `NaN` is "not a number"; any other value is "missing" |
| Collection.OwnSticker | src/routes/api/deck/add-to-album/+server.ts:22-26 | the copy is found exactly when it exists and belongs to the caller |
| Collection.AddToAlbumRequest | src/routes/api/deck/add-to-album/+server.ts:4-37 | errors change nothing; an unreadable or `null` body answers 500, and so does an id outside the 32-bit range; a copy of a sticker already in the album is reported as a duplicate with no change; otherwise only that copy enters the album |
| Collection.DiscardRequest | src/routes/api/deck/discard/+server.ts:4-35 | errors change nothing; an unreadable or `null` body answers 500, and so does an id outside the 32-bit range; an album sticker is never discarded; success removes exactly the caller's copy |
| Collection.TradeRequest | src/routes/api/deck/trade/+server.ts:4-52 | an unreadable or `null` body answers 500, and so does a sticker or recipient id outside the 32-bit range when it is looked up; the guards apply in source order, self-transfer before the recipient lookup; success exactly when the caller owns the copy, it is not in the album and the recipient is another known user; only that copy changes hands |
| Collection.AddToAlbumAction | src/routes/deck/+page.server.ts:14-44 | a body that is not form data answers 500; the form id must be text that `Number.parseInt` reads, and one outside the 32-bit range answers 500; a sticker already in the album is refused; success puts only that copy in the album |
| Collection.FormAndApiAgree | src/routes/deck/+page.server.ts:26-43 | posting an id as decimal text to the page changes the store exactly as posting it as a number to the API, and the two differ only on a duplicate |
| Collection.OpenPacket | src/routes/deck/+page.server.ts:45-56 | 401 without a user; otherwise exactly the two distinct drawn stickers join the user's deck, with no other change |
| Ceremonies.NoChallengeNoCompletion | src/routes/api/auth/complete-registration/+server.ts:19-27 | with no pending challenge no completion succeeds, whatever the response and the verifier |
| Ceremonies.RegistrationSpendsChallenge | src/routes/api/auth/complete-registration/+server.ts:19-64 | after a registration completes, the session holds no challenge and the store invariants still hold |
| Ceremonies.CredentialCreationSpendsChallenge | src/routes/api/auth/complete-credential-creation/+server.ts:13-51 | after a passkey is added, the session holds no challenge |
| Ceremonies.SignInCannotReplay | src/routes/api/auth/complete-authentication/+server.ts:13-21 | a completed sign-in fails when replayed on the same session, even with a verifier that accepts everything |
| Ceremonies.SignedInPasskeyKept | src/routes/api/auth/delete-credential/+server.ts:24-31 | right after a sign-in, a request to delete the passkey just used is refused and changes nothing |

## Left out

- Database I/O, connection setup and transactions: the store is an in-memory record of maps, and concurrent requests are not modelled.
- The store operations are assumptions. `CreateUser` also binds the session to the new credential and consumes the registration. `SaveUserAuthentication` clears the session's registration. `Transfer` refreshes the received time.
- WebAuthn cryptography and option generation inside the library: the verifier is a function parameter, and the generated challenge is a parameter.
- Randomness: session ids, user handles, challenges and `Math.random` results are parameters.
- Packets.GeneratePacket: the source loop never ends when the catalogue has fewer than two distinct ids. The model stops when the supplied rolls run out and answers none.
- Collection.OpenPacket: it assumes the catalogue lists only stored stickers and that stored rows carry their own keys. The answer lists the packet in draw order, not in the store's order.
- Floating point: `Math.random` rolls are exact reals, and the `Math.floor` and `Math.round` calls in `getTimeUntil` are integer division. JSON numbers in request bodies are safe integers, or `NaN`, which no JSON body actually holds.
- JsValues.OptionalToString: numbers outside plus or minus 2^53 - 1 are not modelled, so neither is the exponent form `String` gives from 1e21 up, which `Number.parseInt` would not read back.
- Collection.NumberField: a fractional JSON number is not modelled, because the model's JSON numbers are integers.
- JsValues.ParseInt: the result is exact; beyond 2^53 JavaScript would round it.
- Db.CreateRegistration: the `serial` sequence of registration ids ends at 2^31 - 1, after which the insert raises; the model's serial counters are unbounded.
- Db.CreateUser: the end of the user id sequence at 2^31 - 1 is not modelled, for the same reason.
- Db.AddToDeck: the end of the owned-sticker id sequence at 2^31 - 1 is not modelled, for the same reason.
- Dates: instants are unbounded integers; the JavaScript `Date` range of 8.64e15 ms either side of the epoch is not modelled.
- A request handler works with one instant `now`. The source reads `new Date()` again inside `startRegistrationSession`, `startAuthenticationSession` and `getSession`, so there the session's creation time can lie a few milliseconds after the handler's `now`.
- The `addMilliseconds` the begin-* handlers import from `$lib/dates` is not part of this model; the handlers use the server date helper.
- The deck page's `load` and its `getDeck` query are not modelled.
- Cookie transport flags (`secure`, `httpOnly`, `sameSite`, `path`) carry no logic.
- The request hook, the seed script, the fetch and JSON helpers and the redirect-only routes, apart from `endSession`, which is modelled.
- Logging of caught errors.
