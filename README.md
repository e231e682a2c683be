# WhatsApp message scheduler: account lifecycle and scheduling core

A Dafny model of the two server-side state machines of a small web
application that lets a registered user link a WhatsApp session and record
messages to be sent later.

- **Account lifecycle** (`server/routes/auth.js`, module `Auth` in
  `Auth.dfy`). The `users` table is a `map` from email to row. `register`
  inserts an unverified row that carries a verification token. `verify/:token`
  marks the row of the email embedded in the token as verified and clears its
  token. `login` only reads the table. bcrypt and jsonwebtoken enter as the
  function values of a `Crypto` record: `hash`, `compare`, `sign`, and a
  `decode` that may fail. The random salt and the outcome of sending the
  verification mail are parameters of `register`.
- **Session registry** (`server/routes/whatsapp.js`, module `Sessions` in
  `Sessions.dfy`). This is the dictionary `whatsappClients`, from user id to
  `{ qr, ready }`. `init` adds an entry. The library's asynchronous `qr` and
  `ready` callbacks become the methods `OnQr` and `OnReady`. The QR lookup
  only reads the registry.
- **Message table** (`server/routes/whatsapp.js`, module `Messages` in
  `Messages.dfy`). `scheduled_messages` is a sequence that `schedule` appends
  to when the user's session is ready. `scheduled/:userId` is a filter by user
  followed by an ascending sort on `scheduled_time`.

Each operation is first a pure step function from the old state and the
request to the new state and the response (`RegisterStep`, `VerifyStep`,
`InitStep`, `QrEvent`, `ReadyEvent`, `ScheduleStep`). The routes then appear
in their imperative form, as classes whose fields the methods update in place:
`Auth.AuthService`, `Sessions.SessionRegistry` and `Messages.MessageTable`.
Each method is proved to produce exactly the state and response of its step
function and to keep the class invariant. The read-only routes (`Login`,
`QrLookup`, `ListScheduled`) are functions of the state.

Record shapes and defaults follow the schema in `server/server.js`: `email`
is UNIQUE, `verified` defaults to false, `status` defaults to `'scheduled'`.
The VARCHAR widths (255 for `email`, `password` and `verification_token`; 20
for `phone_number`) and the foreign key `user_id REFERENCES users(id)` are
modelled: an INSERT that violates one of them is caught by the route and
answered with 500, and no row is added. As in PostgreSQL, a phone number whose
characters past the width are all spaces is not an error but is stored cut to
20 characters.

User ids have one key type, `nat`. Request bodies carry numbers and URL
parameters carry strings, and a JavaScript object turns both into the same
property name. Keys that are not non-negative integers are outside the model
(see "Left out").

Files: `Optional.dfy` (Option), `Http.dfy` (status code plus `{message}`,
`{error}` or payload body), `Auth.dfy`, `Sessions.dfy`, `Messages.dfy`.

### Behaviour of the code worth knowing (the model follows the code)

- When the mail fails, `register` answers 500 but keeps the new row
  (auth.js:44-62). A later `register` for that email is then refused.
- `verify` never compares the token with the stored `verification_token`. Any
  token that decodes to an email verifies that email's row. A token whose
  payload has no email, such as a session token from `login`, decodes
  successfully. The route then updates `WHERE email = NULL`, which matches no
  row, and still answers 200.
- Verification is idempotent: while the token is unexpired, a second call
  gives the same table and the same response (`VerifyIdempotent`). Once it has
  expired the second call answers 400, yet the table is still the one the
  first call left (`VerifyTableIdempotentAcrossClock`).
- `schedule` does not check that the message is non-empty. The schema only
  requires NOT NULL.
- The QR lookup tests `!clientData.qr`, so an empty QR string counts as "not
  generated yet".

## Model

| member | source | states |
|---|---|---|
| `Auth.RegisterStep` | server/routes/auth.js:21-64 | A password mismatch gives 400 "Passwords do not match" with the table unchanged. An existing email gives 400 "User already exists" with the table unchanged. No existing row changes, and only the row of `email` can appear. That row appears exactly when the checks pass and the INSERT fits the columns. It holds `hash(password, salt)`, the token `sign({email})` and `verified = false`. An INSERT the columns refuse gives 500 "Server error" with the table unchanged. A failed mail gives 500 "Server error" but keeps the row. The answer is 201 exactly when the row was inserted and the mail was delivered, and then its body is the "User registered" message. The table invariant is preserved. |
| `Auth.VerifyStep` | server/routes/auth.js:67-82 | A token that does not decode gives 400 "Invalid or expired token" and no change. A token that decodes gives 200, even when no row matches. The row of the embedded email becomes verified with no token, and its other fields are unchanged. Every other row is untouched, and the key set and id counter are unchanged. The invariant is preserved. |
| `Auth.Login` | server/routes/auth.js:85-114 | An unknown email gives "Invalid credentials". An unverified user gets "Please verify your email first" whatever the password. A verified user with a wrong password gets "Invalid credentials". The answer is 200 exactly when the user exists, is verified and the password matches its hash. On success the body is the token signed over that row's id. Every failure is a 400 error. The function reads the table and cannot change it. |
| `Auth.VerifyIdempotent` | server/routes/auth.js:75 | Verifying a second time with the same token, with the token decoding as it did the first time (not yet expired), yields the same table and response. |
| `Auth.VerifyTableIdempotentAcrossClock` | server/routes/auth.js:72-80 | When the token decodes the same way on the second call or has expired in between, the second verify leaves the table exactly as the first left it. |
| `Auth.RegisterTwiceRefused` | server/routes/auth.js:31-34 | Once a registration has inserted its row, whether or not the mail went out, the next registration of that email with matching passwords gives 400 "User already exists" and changes nothing. |
| `Auth.Lifecycle` | server/routes/auth.js:44-109 | After `register`, `login` gives "Please verify your email first" for any password. After `verify` with the mailed token (not yet expired), the same password logs in, and the token carries the new row's id. |
| `Auth.SessionTokenVerifiesNothing` | server/routes/auth.js:72-77 | A session token (payload `{id}`) given to `verify` answers 200 and leaves the table unchanged. |
| `Auth.AuthService.constructor` | server/server.js:30-37 | The service starts with an empty users table, ids from 1, and the invariant. |
| `Auth.AuthService.Register` | server/routes/auth.js:21-64 | The in-place insert produces exactly `RegisterStep`'s table and response, and keeps the invariant. |
| `Auth.AuthService.Verify` | server/routes/auth.js:67-82 | The in-place update produces exactly `VerifyStep`'s table and response, and keeps the invariant. |
| `Sessions.InitStep` | server/routes/whatsapp.js:13-64 | A user already in the registry gets 400 "Client already initialized" and no change. A new user gets exactly one entry `{qr: null, ready: false}`, and other entries are unchanged. This holds even when `client.initialize()` then fails with 500. A failure during setup, before the store, leaves the registry unchanged. Either failure for a new user gives 500 "Failed to initialize WhatsApp client". The answer is 200 exactly for a new user with no fault, and then its body is the "initializing" message. The registry only grows. |
| `Sessions.QrEvent` | server/routes/whatsapp.js:38-41 | Only that user's `qr` changes, to the received code. `ready` and all other entries stay as they were. The registry only grows. |
| `Sessions.ReadyEvent` | server/routes/whatsapp.js:44-47 | Only that user's `ready` changes, to true. Its `qr` and all other entries stay as they were. The registry only grows. |
| `Sessions.QrLookup` | server/routes/whatsapp.js:67-80 | No entry gives 404 "Client not found". An entry without a (non-empty) code gives 404 "QR code not generated yet". Otherwise the answer is 200 with exactly the stored code. |
| `Sessions.GrowsTransitive` | server/routes/whatsapp.js:10-63 | The relation "entries are never removed, a received QR is never cleared, a ready session never becomes unready", which `InitStep`, `QrEvent` and `ReadyEvent` each ensure, is transitive, so it chains from one step to the next. |
| `Sessions.InitOnce` | server/routes/whatsapp.js:18-20 | Once an `init` has stored an entry, including one that answered 500, every later `init` for that user is refused however the registry evolved meanwhile. |
| `Sessions.QrEventThenLookup` | server/routes/whatsapp.js:40 | After a `qr` event the lookup returns exactly that code, or 404 "QR code not generated yet" when the code is empty. |
| `Sessions.SessionRegistry.constructor` | server/routes/whatsapp.js:10 | The registry starts empty. |
| `Sessions.SessionRegistry.Init` | server/routes/whatsapp.js:13-64 | The in-place update produces exactly `InitStep`'s registry and response. |
| `Sessions.SessionRegistry.OnQr` | server/routes/whatsapp.js:38-41 | The in-place update produces exactly `QrEvent`'s registry. |
| `Sessions.SessionRegistry.OnReady` | server/routes/whatsapp.js:44-47 | The in-place update produces exactly `ReadyEvent`'s registry. |
| `Messages.ScheduleStep` | server/routes/whatsapp.js:83-104 | No entry, or an entry that is not ready, gives 400 "WhatsApp client not ready" with the table unchanged. A ready user whose INSERT the table refuses gets 500 "Failed to schedule message" with the table unchanged. The answer is 200 exactly when the user is ready, exists in `users` and the phone fits VARCHAR(20) (characters past 20 all spaces). A success appends exactly the returned row, which has the given user, text and time, the phone number cut to 20 characters, status `'scheduled'`, and an id that no existing row has. Every failure leaves the table unchanged. The table invariant is preserved. |
| `Messages.PaddedPhoneIsCut` | server/routes/whatsapp.js:94-99 | A ready user's phone number "+15551234567" followed by 10 spaces is accepted with 200 and stored as its first 20 characters. |
| `Messages.OwnedBy` | server/routes/whatsapp.js:112 | `WHERE user_id = $1`: a row is in the result exactly when it is in the table and belongs to that user. |
| `Messages.InsertPermutes` | server/routes/whatsapp.js:112 | One insertion step of the sort adds exactly the inserted row and loses nothing. |
| `Messages.InsertKeepsSorted` | server/routes/whatsapp.js:112 | Inserting a row into a time-ordered sequence keeps it ordered. |
| `Messages.SortByTime` | server/routes/whatsapp.js:112 | `ORDER BY scheduled_time ASC`: the result is ordered by time and is a permutation of the input. |
| `Messages.ListScheduled` | server/routes/whatsapp.js:107-121 | The result is ordered by time ascending. It is a permutation of the user's rows, and a message is listed exactly when it is in the table and belongs to the user. |
| `Messages.ListEmptyWhenNone` | server/routes/whatsapp.js:111-116 | A user with no rows gets the empty sequence, not an error (for ids in the range of the INTEGER column). |
| `Messages.OwnedByAppend` | server/routes/whatsapp.js:94-97 | Appending a row extends its owner's selection by that row and leaves every other user's selection unchanged. |
| `Messages.ScheduledIsListed` | server/routes/whatsapp.js:94-114 | A message that `schedule` accepted appears in its user's list. |
| `Messages.ScheduleKeepsOtherLists` | server/routes/whatsapp.js:94-114 | Scheduling for one user leaves every other user's list exactly as it was. |
| `Messages.StatusFrozen` | server/server.js:45 | In any well-formed table, every listed message still has status `'scheduled'`. Since `ScheduleStep` only appends rows with that status and keeps the table well-formed, this holds after any history. |
| `Messages.ScheduleBeforeReady` | server/routes/whatsapp.js:88-91 | Straight after a successful `init`, before `ready` fires, `schedule` gives 400 "WhatsApp client not ready" and stores nothing. |
| `Messages.ListingOrderExample` | server/routes/whatsapp.js:111-114 | Messages inserted at Jan 3, Jan 1 and Jan 2 are listed as Jan 1, Jan 2, Jan 3. |
| `Messages.MessageTable.constructor` | server/server.js:39-47 | The table starts empty with ids from 1 and satisfies the invariant. |
| `Messages.MessageTable.Schedule` | server/routes/whatsapp.js:83-104 | The in-place append produces exactly `ScheduleStep`'s table and response, keeps the invariant, and does not touch the registry. |

## Left out

- bcrypt salting and hashing, and JWT signing, verification and expiry (`'1d'`, `'1h'`), are foreign libraries. They are the opaque functions of `Auth.Crypto`. Expiry is part of `decode` failing. Within one `Crypto` value, `decode` and `sign` do not depend on time, so the model has no token that expires between two calls of `AuthService` (the two-call lemma `VerifyTableIdempotentAcrossClock` takes two `Crypto` values for that). The `iat` claim that makes each real token different is not modelled. The lifecycle lemma assumes that the mailed token still decodes and that a password matches its own hash.
- Sending the verification mail over SMTP is reduced to a success/failure parameter of `register`.
- Database failures other than the modelled schema constraints (connection loss, errors in `hash` or `sign`) are not modelled. The store is reliable, so the 500 answer of `scheduled/:userId` arises only from ids the model does not represent: strings that are not integers (such as `abc` or `1.5`) and ids of 2^31 and above, both named below.
- The `created_at` columns are not modelled, because they need a clock.
- `scheduledTime` is an integer instant. The parsing of the request's timestamp string by Postgres, and its 500 on a malformed value, are not modelled.
- Request fields that are missing or not strings (JavaScript `undefined`/`null`, NOT NULL violations) are not modelled. Every field is a string or a number.
- Ids come from a counter that advances only on a successful insert. Postgres may skip SERIAL values after a failed insert; the model claims only that ids are distinct.
- A user id given as a non-canonical numeric string (such as `"042"`) is not modelled. JavaScript treats it as a different registry key, while Postgres treats it as the same integer.
- Registry keys that are not non-negative integers are not modelled, because `Sessions.UserId` is `nat`. `init` stores an entry under most such keys, such as `"abc"`, `-1` or `1.5`, and `qr/:userId` reads it back; `schedule` for such a key fails at the INSERT with 500. The exception is a name inherited from `Object.prototype` (`constructor`, `toString`, `__proto__`): the lookup on the empty object is already truthy, so `init` answers 400 "Client already initialized" without storing anything, `qr/:userId` answers 404 "QR code not generated yet", and `schedule` answers 400.
- Messages.ListScheduled and Messages.ListEmptyWhenNone: the `user_id` column is a 32-bit INTEGER, so Postgres rejects an id of 2^31 or above as out of range and `scheduled/:userId` answers 500 "Failed to get scheduled messages". The model has unbounded ids and answers `[]` for such an id; the empty list of `ListEmptyWhenNone` is promised only for ids below 2^31.
- The SERIAL id counters (`Auth.AuthState.nextId`, `Messages.Table.nextId`) are unbounded `nat`s. Postgres SERIAL is a 32-bit integer, and an insert fails once the sequence passes 2^31-1.
- Auth.RegisterStep: the VARCHAR(255) columns of `users` are checked strictly, without PostgreSQL's cut of trailing spaces. That cut never applies there: a bcrypt hash has 60 characters, and the verification token contains no spaces and grows with the email, so an over-long email always fails on the token.
- The tie order of rows with equal `scheduled_time` is unspecified in SQL. `SortByTime` fixes one order, and the contracts claim only ordering and permutation.
- VARCHAR widths are counted in `char`s of the Dafny string. No character encoding is modelled.
- whatsapp-web.js, puppeteer, `qrcode-terminal`, the session directory on disk and console logging are foreign code or I/O. Their failures before the registry store are `InitFault.SetupFails`, and a failing `client.initialize()` is `InitFault.InitializeFails`.
- Concurrency and async interleavings are not modelled, because the model is sequential. In particular, `register` awaits between its SELECT for the email and its INSERT, so two concurrent registrations of one email can both pass the check. The second INSERT then fails on `email UNIQUE` and answers 500 "Server error" instead of 400 "User already exists"; this race is not captured. (`init` has no such race: nothing is awaited between its duplicate check and its store.)
- The HTTP encoding beyond status code and body, Express wiring, static file serving, `initializeDatabase` I/O and the React client are not part of this model.
