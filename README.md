# Credential and entitlement engine of the SorryBut backend, in Dafny

This project models the part of the SorryBut backend that decides who may log
in and who holds premium access:

- the **entitlement ledger** (`utils/storage.js`): a case-insensitive list of
  premium users that only grows, where `addPremiumUser` is idempotent;
- the **one-time login codes** (`utils/storage.js`): six-digit codes stored per
  lower-cased e-mail address, valid for ten minutes, checked lazily and
  deleted when used;
- the **Stripe webhook** (`routes/webhook.js`): how a
  `checkout.session.completed` event becomes an entitlement, a warning or an
  error, and why redelivery converges on one entitlement;
- the **login routes** (`routes/auth.js`): request a code, log in with it,
  check premium status;
- the **auth middleware** (`middleware/auth.js`): the Bearer token taken from
  the Authorization header, and the premium gate;
- the **data loader cache** (`utils/dataLoader.js`): per-language tables
  filled on first load, with fallback to `'fr'`.

Modules, one per source file or concept:

| file | module | models |
|---|---|---|
| `wrappers.dfy` | `Wrappers` | `Option` and JavaScript truthiness of optional strings |
| `text.dfy` | `Text` | `toLowerCase`, `split(' ')`, decimal `toString` |
| `ledger.dfy` | `Ledger` | the premium-user list as a value (`isPremiumUser`, `addPremiumUser`) |
| `otp.dfy` | `Otp` | the code table as a value (`generateOTPCode`, `storeOTPCode`, `verifyOTPCode`) |
| `storage.dfy` | `Storage` | class `Store`: the two JSON files and the operations that rewrite them |
| `webhook.dfy` | `Webhook` | the `/webhook/stripe` handler |
| `auth_routes.dfy` | `AuthRoutes` | `/auth/request-otp`, `/auth/login`, `/auth/check` |
| `auth_middleware.dfy` | `AuthMiddleware` | `authenticateToken`, `requirePremium` |
| `data_loader.dfy` | `DataLoader` | class `Cache`: `loadReasons`, `loadI18n`, `getRandomReason`, `clearCache` |

The state that the source changes in place is held in classes. `Store` holds
the two files, `Cache` the module-level `cache`, and `Request` the
`req.userEmail` field. Their methods are proved against pure functions
(`Grant`, `Issue`, `CheckCode`/`AfterCheck`, `Load`), and the properties that
matter are proved as lemmas about those functions.

Inputs from outside the core are parameters:

- the clock is `now` (milliseconds);
- `Math.random()` is `random`, a real in [0, 1);
- whether a file write succeeds is `writeOk`;
- whether the OTP e-mail was sent is `sendOk`;
- the result of Stripe's `constructEvent` is `constructed`;
- JWT signing and verification are the functions `sign` and `verify`;
- a data file read is `read`.

Each storage file is modelled by what reading it finds, `Missing`, `Corrupt`
or `Parsed(value)`. Reading anything but `Parsed` gives the empty list or
table, as `readEntitlements`/`readOTPCodes` do.

Where the code differs from what a reader of its description might expect,
the model follows the code:

- **Expiry is strict.** The test is `Date.now() > stored.expiresAt`, so a code
  is still accepted at exactly `expiresAt` (`Otp.IssueThenVerify` proves it
  for `now == issuedAt + 600000`).
- **A failed storage write in the webhook asks for no retry.** The reply is a
  200-style `{received: true, error: 'Premium activation failed'}`, not a
  500.
- **There is no verified-email marker.** `server.js` advertises
  `/auth/verify-email` and `/auth/confirm-email`, but no file implements them.
  The model has no such marker.
- **A corrupt entitlements file is overwritten.** After a corrupt read,
  `addPremiumUser` writes back a one-record list, so the unreadable records are
  lost. "Only grows" therefore holds of what reads see
  (`Store.PremiumUsers()`), which is what every method's contract states.

## Model

| member | source | states |
|---|---|---|
| `Text.Lower` | utils/storage.js:59 | `toLowerCase` keeps the length, folds each character, and leaves no upper-case ASCII letter |
| `Text.LowerIdempotent` | utils/storage.js:76 | folding the stored lower-cased address again changes nothing |
| `Text.LowerIsSameEmail` | utils/storage.js:71-76 | a stored `email.toLowerCase()` names the same identity as every spelling of the address |
| `Text.Split` | middleware/auth.js:10 | `split(' ')` returns at least one part, and no part contains a space |
| `Text.JoinSplit` | middleware/auth.js:10 | splitting loses nothing: joining the parts with spaces gives back the header |
| `Text.SplitNoSpace` | middleware/auth.js:10 | a string without spaces splits into itself alone |
| `Text.SplitAfterWord` | middleware/auth.js:10 | a space-free first word followed by a space is split off, whatever follows |
| `Text.SplitJoin` | middleware/auth.js:10 | space-free parts joined and split again come back unchanged |
| `Text.DecimalString` | utils/storage.js:107 | `toString` of a natural number is all digits, with a leading '0' only for zero |
| `Text.DecimalRoundTrip` | utils/storage.js:107 | reading the decimal rendering back gives the number |
| `Text.DecimalLength` | utils/storage.js:107 | a number with k digits renders as exactly k characters |
| `Ledger.IsPremium` | utils/storage.js:56-61 | `isPremiumUser` holds iff some stored record's email equals the address ignoring case |
| `Ledger.Grant` | utils/storage.js:66-82 | `addPremiumUser` is a no-op for a present identity. Otherwise it appends exactly one record `{lower(email), now, sessionId}` and keeps earlier records. Afterwards exactly the earlier identities and this one are premium |
| `Ledger.GrantKeepsUnique` | utils/storage.js:69-81 | the duplicate check keeps the list free of two records for one identity |
| `Ledger.GrantAllPresent` | utils/storage.js:69-81 | any number of calls for an identity already present leave the list unchanged |
| `Ledger.GrantRepeated` | utils/storage.js:66-82 | N >= 1 calls for one new identity, in any letter case, leave exactly one record for it, with the first call's `activatedAt` and `stripeSessionId` |
| `Ledger.GrantAllGrows` | utils/storage.js:66-82 | no sequence of calls removes a record or a premium identity |
| `Otp.GenerateOtpCode` | utils/storage.js:106-108 | the code is six digits with a non-zero first digit, denoting a number in 100000..999999 |
| `Otp.Issue` | utils/storage.js:113-120 | storing sets `codes[lower(email)] = {code, now + 600000}`, replacing any earlier code; other keys are unchanged |
| `Otp.CheckCode` | utils/storage.js:125-147 | verification finds nothing iff no record exists for the lower-cased key. It accepts iff the record is unexpired (`now <= expiresAt`) and its code is equal |
| `Otp.AfterCheck` | utils/storage.js:125-147 | the table after `verifyOTPCode(email, code)` at `now`: the record is deleted exactly when it is expired or matches, the table is unchanged otherwise, and no other record changes |
| `Otp.IssueThenVerify` | utils/storage.js:113-147 | a freshly stored code is accepted for any spelling of the address until and including its expiry instant |
| `Otp.SingleUse` | utils/storage.js:144-147 | after a successful verification the next one for that identity finds no code |
| `Otp.ExpiredRefusesAll` | utils/storage.js:133-138 | after expiry every code, the right one included, is refused and the record deleted |
| `Otp.WrongCodeKeepsRecord` | utils/storage.js:140-142 | an unexpired wrong code is refused and the record kept |
| `Otp.ReissueInvalidates` | utils/storage.js:113-120 | after a new code is stored only that code can be accepted |
| `Otp.OtherIdentityUnaffected` | utils/storage.js:113-147 | storing or consuming a code for one identity does not change verification for another |
| `Otp.WorkedExample` | utils/storage.js:113-147 | "482913" for a@b.com is accepted 5 s after issue for A@B.com, then refused. After 601 s it is refused as expired |
| `Storage.ReadEntitlements` | utils/storage.js:37-44 | an unreadable or corrupt entitlements file reads as an empty list |
| `Storage.ReadOtpCodes` | utils/storage.js:87-94 | an unreadable or corrupt code file reads as an empty table |
| `Storage.Store.InitStorage` | utils/storage.js:10-32 | a missing file is created empty, an existing one is left alone, and what reads see does not change |
| `Storage.Store.IsPremiumUser` | utils/storage.js:56-61 | the answer is true iff a stored record matches the address ignoring case |
| `Storage.Store.AddPremiumUser` | utils/storage.js:66-82 | a present identity causes no write. Otherwise the file becomes `Grant(...)`, unless the write throws. Reads never lose a record, and the code file is untouched |
| `Storage.Store.StoreOtpCode` | utils/storage.js:113-120 | the code file becomes `Issue(...)` of what was read, unless the write throws |
| `Storage.Store.VerifyOtpCode` | utils/storage.js:125-148 | true only for an unexpired matching code, which is then gone. Only the deleting branches write, and only they can throw. Entitlements are untouched |
| `Webhook.SessionEmail` | routes/webhook.js:45 | the address is `metadata.email` when truthy, otherwise `customer_email` |
| `Webhook.Decide` | routes/webhook.js:45-63 | a missing address warns, an address without '@' warns, and only an address with '@' is granted |
| `Webhook.HandleStripeWebhook` | routes/webhook.js:16-125 | See the rows below |
| `Webhook.DeliverTwice` | routes/webhook.js:38-116 | the same completed checkout delivered twice is acknowledged both times and leaves only the first delivery's grant, even when the second write would fail |
| `AuthRoutes.RequestOtp` | routes/auth.js:12-43 | a missing address or one without '@' gives 400 and stores nothing. Otherwise a fresh six-digit code replaces the earlier one before it is sent. A send failure gives 500 but keeps the code; a store failure gives 500 and sends nothing |
| `AuthRoutes.Login` | routes/auth.js:49-86 | a missing address or code gives 400 without touching codes. An invalid or expired code gives 401, and a valid code for a non-premium address gives 403 after consuming it. A token `sign(email)` is issued only for a matching code and a premium identity |
| `AuthRoutes.Check` | routes/auth.js:92-110 | a missing address gives 400. Otherwise `hasPremium` is whether some record matches ignoring case, and no state changes |
| `AuthMiddleware.BearerToken` | middleware/auth.js:9-10 | the token is the second space-separated segment of a truthy header, and there is none without a second segment |
| `AuthMiddleware.SchemeIgnored` | middleware/auth.js:10 | `<any word> <token>` yields the token: the scheme is never checked |
| `AuthMiddleware.NoSpaceNoToken` | middleware/auth.js:9-14 | a header without a space has no token |
| `AuthMiddleware.AuthenticateToken` | middleware/auth.js:8-24 | no or empty token gives 401, and a token `verify` rejects gives 403; neither calls `next` nor sets `userEmail`. Otherwise `userEmail` is the decoded email and `next` is called |
| `AuthMiddleware.RequirePremium` | middleware/auth.js:30-46 | no address gives 401, and a non-premium address gives 403. `next` is called iff the address matches a stored record ignoring case |
| `DataLoader.ResolveLanguage` | utils/dataLoader.js:20-22 | a language outside fr/en/es/de/it becomes 'fr', and a supported one is kept |
| `DataLoader.Load` | utils/dataLoader.js:18-45 | a hit reads no file. A successful read is cached and returned. A failed read falls back once to 'fr', or gives the empty value and caches nothing. The cache only grows and only holds values read from files |
| `DataLoader.LoadAgainHits` | utils/dataLoader.js:25-36 | once a language is cached, later loads return the same value without reading, whatever the files hold |
| `DataLoader.PickReason` | utils/dataLoader.js:55-60 | the choice is null iff the list is empty, and otherwise an element of the list |
| `DataLoader.Cache.LoadReasons` | utils/dataLoader.js:18-45 | returns `Load(...)` of the reasons table, updates that table to match, and lists the files read; i18n is untouched |
| `DataLoader.Cache.LoadI18n` | utils/dataLoader.js:68-95 | the same for the i18n table, with `{}` as the empty value; reasons are untouched |
| `DataLoader.Cache.GetRandomReason` | utils/dataLoader.js:52-61 | gives null iff the loaded list is empty, and otherwise an element of it |
| `DataLoader.Cache.ClearCache` | utils/dataLoader.js:100-103 | both tables are emptied |

`Webhook.HandleStripeWebhook` states:

- A missing secret gives 500 and a failed signature check gives 400, both
  before any store access.
- Other event types (`payment_intent.*`, `charge.refunded`, unknown types) are
  acknowledged with `{received, eventType}` and leave the ledger untouched.
- A checkout without an address, or with one lacking '@', is acknowledged
  with a warning and grants nothing.
- Otherwise the ledger becomes `Grant(...)` and the reply is
  `{received, eventType}`. If the write throws, the reply is
  `{received, error: 'Premium activation failed'}` with status 200.
- The confirmation e-mail is started only for an address that is premium
  after the call.

## Left out

- Text.Lower: only ASCII letters are folded. JavaScript's full Unicode `toLowerCase` is not modelled, so two addresses that differ only in non-ASCII case are distinct here.
- File I/O and JSON: files are values. A failed write leaves the file as it was, and partial writes are not modelled.
- Storage.FileState: `Parsed` assumes the expected shape (`{ premiumUsers: [...] }` of records with an `email` string, `{ codes: {...} }`). A document that parses but has another shape (`{}`, a record without `email`) makes `isPremiumUser`, `addPremiumUser`, `storeOTPCode` and `verifyOTPCode` throw; that is not modelled.
- The async read-modify-write in `storage.js` is not atomic. Operations are modelled as sequential, and nothing is claimed about races between concurrent requests.
- `activatedAt` is the `now` timestamp, not the ISO string `new Date().toISOString()`.
- `Math.random`, `Date.now`, e-mail sending, Stripe's `constructEvent`, and JWT `generateToken`/`verifyToken` (`utils/jwt.js`) are parameters. Their own behaviour (SMTP, signatures, the 90-day token expiry) is not modelled.
- Webhook.HandleStripeWebhook: the outer `catch` that answers 500 'Webhook processing error' is not modelled. With well-typed events nothing in the dispatch can throw except `addPremiumUser`, which has its own `catch`. The 400 reply carries "Webhook Error" without Stripe's error message.
- AuthRoutes.RequestOtp: the `devCode` field returned when `NODE_ENV` is `development` is not modelled.
- AuthRoutes.RequestOtp: request fields are strings. A non-string `email` that passes `includes('@')` (an array such as `["@"]`) and then throws in `toLowerCase` inside `storeOTPCode`, answered 500 'Server error', is not modelled.
- AuthRoutes.Check: the query `email` is a string. A repeated `email` key reaches `isPremiumUser` as an array, throws in `toLowerCase` once the list has a record, and is answered 500 'Server error'; that is not modelled.
- AuthRoutes.Login: request fields are strings. A numeric `code` in the JSON body, which never equals the stored string under `!==`, is not modelled separately.
- `server.js` (Express wiring, CORS, startup, the HTML pages) is not modelled. Its `/payment/success` route is one more caller of `addPremiumUser`, guarded by `payment_status === 'paid'` and a truthy address; it is covered by `Storage.Store.AddPremiumUser`.
- `routes/checkout.js`, `routes/premium.js`, `middleware/rateLimiter.js`, `utils/email.js` and `test-email.js` are not part of this model: they are Stripe session creation, HTTP glue, rate-limit configuration and SMTP delivery.
- DataLoader: data files are read as already-parsed values. A JSON document of the wrong shape, and a falsy parsed value that would miss the cache, are not modelled.
