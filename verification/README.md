# Office seat booking — a Dafny model

The system books office seats. Its back end is a FastAPI service over two
MongoDB collections:
- `seats`: a hundred seats, each available or occupied.
- `employees`: one document per employee, keyed by `w3_id`.

Employees sign in through an OAuth 2.0 authorization-code login with the
identity provider. The callback writes the signed-in user into the request
session, and `get_current_user` reads it back. The application installs no
session middleware, so as assembled that session does not exist (see
"## Findings"). The rest of the model assumes a session middleware is installed.
A signed-in user can list the seats, book a free seat and release any seat.
The React page fetches the seats and normalises their ids. It also defines
helpers for the seat map: a zone colour per seat, search highlighting, a
countdown and a random pick of a free seat. Its main screen is a placeholder
that calls none of these helpers, so only the normalisation in `fetchSeats`
runs; the model covers the helpers as they are written.

The model is functional. Each collection is a sequence of documents in its
natural order. `find_one` and `update_one` act on the first matching document,
so "one document per key" is an invariant the model proves, not something its
types assume. Every route is a pure transition from a store to a response and
a new store.

Modules (each Dafny module, its file, and the source file it models):
- `Base` (`base.dfy`, shared helpers):
  - `Option` and `Result`, and HTTP errors
  - Python truthiness of optional strings
  - the first-match search behind `find_one`
- `Text` (`text.dfy`, the string operations the source relies on):
  - joining and splitting on a separator
  - how a client reads a URL's query parameters
  - decimal rendering of numbers and reading them back
  - ASCII lower-casing
  - JavaScript's `includes`, proved equal to "is a substring of"
- `Schemas` (`schemas.dfy`, models `backend/schemas.py`): the claims-to-employee mapping, and the invariants of the employees collection.
- `Auth` (`auth.dfy`, models `backend/auth.py`):
  - the authorization URL
  - the callback's chain of guards
  - the employee upsert and the session user
  - `get_current_user`
  - the callback and `get_current_user` without a session middleware
- `Ledger` (`ledger.dfy`, models `backend/main.py`): seeding, listing, booking and releasing seats, and the invariants they keep.
- `App` (`app.dfy`, models `frontend/src/App.jsx`): id normalisation, zones, search, countdown and auto-select.
- `Service` (`service.dfy`, the routes of `backend/main.py` and `backend/auth.py` together, and the page):
  - every request as one step over the store, and runs of steps
  - the same without a session middleware
  - the JSON a listing is serialised to
  - what the page makes of that JSON

Inputs stand in for what the code reads from outside:
- The clock is a `now` parameter. The two clock reads of `employee_document` are `now` and `now + elapsed` with `elapsed` a natural number, so the model assumes the clock does not step back between them (see "## Left out").
- The outcome of the token request and of decoding the ID token is a `TokenReply` value.
- `Math.random()` is a `draw: nat`.
- A session is the user it stores, or none.

The model follows the code as written, including where it does less than a booking service might be expected to:
- Booking an absent seat answers 400 "Seat unavailable", the same as an occupied seat. There is no 404.
- Releasing an unknown id changes nothing and still answers "Seat released".
- The listing is in collection order, capped at 1000 documents. It is not sorted by id.
- The booking answer is only `{"message": "Seat booked"}`.
- The identity key falls back from `uid` to `preferred_username`.
- Every route, release included, needs a session.

The repository's `backend/test_main.py` targets another variant of the service:
- It calls a `/reset` route that does not exist here.
- It expects the answer "Confirmed for …".

Of its assertions, the model reflects only two: the listing holds a hundred seats, and a second booking of the same seat is refused with 400.

## Model

| member | source | states |
|---|---|---|
| Schemas.W3IdOf | backend/schemas.py:6 | The key is `uid` when that claim is a non-empty string, otherwise `preferred_username`. It is usable (non-empty) exactly when one of the two is. |
| Schemas.EmployeeDocument | backend/schemas.py:4-14 | Sets the key by the `uid`/`preferred_username` rule. Copies `email`, `name`, `manager` and `department` from the claims (absent claims stay absent). Sets `first_login_at` and `last_login_at` to the two clock readings, `now` and `now + elapsed`, so first ≤ last. Gives an empty `booked_seats`. |
| Schemas.EmployeeDocumentIgnoresOtherClaims | backend/schemas.py:4-14 | Claims that agree on the six profile keys give the same document, so every other claim is ignored. |
| Schemas.UniqueKeysCount | backend/auth.py:74-81 | While keys are unique, a key is carried by at most one document. It is carried by exactly one when some document has it. |
| Auth.CurrentUser | backend/auth.py:97-101 | Succeeds exactly when the session holds a user, and then returns that user. Otherwise fails with 401 "Not authenticated". |
| Auth.LoginUrlParams | backend/auth.py:30-39 | The model's query reader `QueryParams` reads the authorization URL back as four parameters, in order: `client_id`, `response_type=code`, `redirect_uri` and `scope=openid email profile`. This holds when the configured values contain no `&` and the endpoint contains no `?`, because the URL is concatenated without encoding. |
| Auth.Callback | backend/auth.py:42-94 | Redirects to the bare front-end URL exactly when every guard passes. Any other outcome changes neither the employees nor the session. A provider `error` takes precedence over everything else. Each failure redirects to exactly `FRONTEND_URL?error=<code>`: the provider's error, then `no_code`, `auth_failed` for a raised exchange or decoding, `token_exchange_failed`, `invalid_claims`. On success the employees are exactly the upsert's result, the session user is the key, `email` and `name` from the claims, and a document with that key exists. Documents are never removed, and collection validity is kept. |
| Auth.CallbackErrorCodes | backend/auth.py:44-94 | When the front-end URL has no `?`, each failed guard's redirect reads back as carrying its own `error` parameter: the provider's error, `no_code`, `auth_failed` for a raised exchange or decoding, `token_exchange_failed` or `invalid_claims`. |
| Auth.ErrorRedirectParams | backend/auth.py:46 | When the front-end URL has no `?` and the reason no `&`, an error redirect reads back as its reason as the only query parameter. |
| Auth.DefaultErrorRedirectParams | backend/auth.py:21-46 | With the default front-end URL, `http://127.0.0.1:5173`, every error redirect whose reason has no `&` reads back as that one `error` parameter. |
| Auth.RecordLogin | backend/auth.py:72-81 | After the upsert, a document with the key exists. No document is removed or re-keyed, and unique keys and seat-list well-formedness are preserved. |
| Auth.RecordLoginEffect | backend/auth.py:72-81 | For a new key, exactly one `employee_document(claims)` is appended. For a known key, only that document's `last_login_at` changes. Either way the key is then carried by exactly one document. |
| Auth.FirstLoginKey | backend/auth.py:67-76 | On a first login, the inserted document's key is the session user's `w3_id`, and its first login is no later than its last. |
| Auth.LoginTwice | backend/auth.py:72-90 | Logging in twice with the same identity leaves one document for it and the same session user. The second login changes only `last_login_at`. |
| Ledger.Seed | backend/main.py:49-55 | Seeding an empty collection gives seats 1..100, each available at price 5 with no booker, and the seats are well formed. A non-empty store is left as it is, and employees are never touched. |
| Ledger.SeededListing | backend/main.py:49-60 | After seeding an empty store, a signed-in listing returns exactly the hundred seats 1..100, all available. |
| Ledger.GetSeats | backend/main.py:58-60 | Lists exactly when there is a session, otherwise fails with 401. The listing is the first min(n, 1000) seats in collection order. |
| Ledger.AddToSet | backend/main.py:74-78 | `$addToSet`: the list only grows at its end, contains the new id, gains nothing else, and stays free of duplicates. |
| Ledger.AddBookedSeatEffect | backend/main.py:74-78 | With unique keys: an unknown caller gets one new document holding just the seat. A known caller's `booked_seats` gains the seat as a set and nothing else changes. The key then has exactly one document. |
| Ledger.Book | backend/main.py:62-80 | Without a session: 401 and no change. Otherwise the answer is "Seat booked" or 400 "Seat unavailable", and a failure changes nothing. When every seat with that id is occupied or there is none, the answer is 400. A success keeps the seat ids in order and only grows the employees' history. |
| Ledger.BookEffect | backend/main.py:62-80 | With unique seat ids, a booking succeeds exactly when there is a session and a seat with that id that is not occupied. That seat alone becomes occupied by the caller, keeping its price. The employees are exactly the result of the `$addToSet` upsert, so the caller's document then holds the seat. |
| Ledger.BookIgnoresDetails | backend/main.py:34-38 | The request's name, date and time slot have no effect on the outcome. |
| Ledger.BookPreservesValid | backend/main.py:62-80 | With a non-empty session key, booking keeps seat ids unique, keeps "booker present exactly when occupied", and keeps employee keys and `booked_seats` unique. |
| Ledger.DoubleBooking | backend/main.py:65-67 | A second booking of a seat that was just booked fails, with 400 for a signed-in caller, and changes nothing. |
| Ledger.Release | backend/main.py:82-88 | Without a session: 401 and no change. With any session: "Seat released", with no ownership check. Employees, seat ids and prices are never changed, and an unknown id changes nothing. |
| Ledger.ReleaseEffect | backend/main.py:82-88 | With a session and unique seat ids, the seat with that id becomes available with no booker, whoever booked it. Every other seat is unchanged. |
| Ledger.ReleasePreservesValid | backend/main.py:82-88 | Releasing keeps the ledger valid. |
| Ledger.ReleaseAvailableIsNoOp | backend/main.py:82-88 | Releasing a seat that is already available changes nothing and still answers "Seat released". |
| Ledger.BookThenRelease | backend/main.py:62-88 | Booking a free seat and then releasing it restores the seats collection. The booking stays in the employee's `booked_seats`. |
| App.Normalise | frontend/src/App.jsx:39-42 | Keeps every property, adds `id`, and sets it to `seat.id` when that is truthy, else to `seat._id`. |
| App.NormaliseIdempotent | frontend/src/App.jsx:39-42 | Normalising twice is normalising once. |
| App.NormaliseAll | frontend/src/App.jsx:39-43 | The fetched list is normalised element by element, with order and length kept. |
| App.ZoneOf | frontend/src/App.jsx:141-149 | Partitions ids into four zones: ≤ 25 blue, 26–50 orange, 51–75 red, everything above green. |
| App.ZoneStyleSameIff | frontend/src/App.jsx:141-149 | Two seats get the same classes exactly when they are in the same zone. |
| App.IsSearched | frontend/src/App.jsx:121-128 | False for an empty query. Otherwise true exactly when the lower-cased query is a substring of the lower-cased `user_details.full_name` or `booked_by`. Missing fields never match. |
| App.FieldIncludes | frontend/src/App.jsx:124-126 | A missing field never matches. A present one matches exactly when the query is a substring of it lower-cased. |
| Text.IncludesSpec | frontend/src/App.jsx:124-126 | The left-to-right scan behind `includes` finds the query exactly when it is a substring. |
| App.TimeLeftOf | frontend/src/App.jsx:131-139 | No booking time gives "not started". The 45 minutes are over exactly when `now` ≥ booked + 2,700,000 ms. Otherwise the minutes are the floor of the remaining milliseconds over 60,000, and at most 45 once the booking has started. |
| App.RenderTimeLeftInjective | frontend/src/App.jsx:132-138 | Different countdown states give different labels. |
| App.GetTimeLeft | frontend/src/App.jsx:131-139 | Gives "45m 00s" exactly when there is no booking time, and "Expiring..." exactly when the 45 minutes are over. |
| App.GetTimeLeftMinutes | frontend/src/App.jsx:131-138 | While the 45 minutes run, the label is a decimal number followed by "m left", and that number reads back as the whole minutes left, the floor of the remaining milliseconds over 60,000. |
| Text.ParseNatToString | frontend/src/App.jsx:138 | Reading back a rendered minute count gives the number. |
| App.AvailableSeats | frontend/src/App.jsx:106 | The filter keeps exactly the seats whose status is "available". |
| App.AutoSelect | frontend/src/App.jsx:105-118 | With no available seat: the error notice, with the selection unchanged. Otherwise: a listed, available seat, with the success notice naming its id. |
| App.AutoSelectReachesEvery | frontend/src/App.jsx:111-112 | Every available seat is picked by some draw. |
| Service.Step | backend/main.py:49-88 | A listing writes nothing. Only booking and the login callback write employees, and the callback never writes seats. |
| Service.StepPreservesValid | backend/main.py:49-88 | One request with a callback-written session keeps the store valid and the employees' history. Once seats exist, it keeps their ids in order. |
| Service.RunPreservesValid | backend/main.py:49-88 | The same holds for every sequence of such requests. |
| Service.StartedServiceKeepsHundredSeats | backend/main.py:49-55 | Started on an empty database, the service holds exactly seats 1..100, valid, after any number of requests. |
| Service.SeatJson | backend/main.py:40-47 | A listed seat is serialised under the alias `_id`, with `status` and `price`, and `booked_by` null when nobody holds it. |
| Service.PageSeat | frontend/src/App.jsx:39-42 | On the page each seat's `id` is its database id, and it is available exactly when its status is "available". |
| Service.ListedAvailableSeatIsBookable | backend/main.py:62-80 | With unique ids and a session, booking a seat the page shows as available succeeds. |
| Auth.CurrentUserAsWritten | backend/auth.py:97-98 | As assembled, without a session middleware, `get_current_user` fails with 500 for every request, signed in or not. |
| Auth.SignedInRefusedAsWritten | backend/auth.py:97-101 | A signed-in client is refused as assembled, while with a session middleware its user is returned. |
| Auth.CallbackAsWritten | backend/auth.py:72-94 | As assembled, the callback never redirects to the bare front-end URL and never stores a session. When every guard passes, the employee upsert still happens and the redirect is `?error=auth_failed`. Otherwise it behaves as `Auth.Callback`. |
| Auth.FirstLoginReportedAsFailed | backend/auth.py:72-94 | A first login with a valid `uid` inserts the employee, yet as assembled redirects to `?error=auth_failed` with no session; with a session middleware it redirects to the front end with that user. |
| Service.StepAsWritten | backend/main.py:22-31 | As assembled, every seat route answers 500 and changes nothing; a callback never redirects to the bare front-end URL, never stores a session, and never writes seats. |
| Service.SeatsFrozenAsWritten | backend/main.py:22-88 | As assembled, once seats exist no sequence of requests changes them. |
| Service.NoSeatBookedAsWritten | backend/main.py:22-88 | As assembled, a service started on an empty database never has an occupied seat. |
| Service.StartedServiceBooks | backend/main.py:49-80 | With a session middleware, after start-up a signed-in booking of seat 1 leaves it occupied by the caller at price 5. |
| Service.AutoSelectedSeatIsBookable | frontend/src/App.jsx:105-118 | When the listing shows a free seat, auto-select picks a seat, and with unique ids and a session, booking the picked seat's id succeeds. |

## Left out

- MongoDB faults: the store never raises in the model. If one of the callback's own database calls raised, the redirect would be `auth_failed`; that path is not modelled.
- The race between reading and writing the seat in `book`: the model is sequential, so a double booking by two concurrent requests cannot be expressed.
- The token request to the provider, `r.json()` and `jwt.get_unverified_claims`: foreign calls, replaced by the `TokenReply` input. No signature is checked by the code, and none is modelled.
- Claims that are not strings: claims are a map from strings to strings.
- Unicode case folding: `toLowerCase` is modelled on ASCII letters only.
- Non-integer JavaScript numbers: `new Date(...)` parsing and `NaN` are left out. The booking time reaches `getTimeLeft` as integer milliseconds, or none when the string is empty.
- Seat ids on the page that are not numbers: `getZoneStyle` is modelled on integers.
- A `TypeError` from a non-string `full_name` or `booked_by` in `isSearched`: the model treats such a field as missing.
- The percent-encoding Starlette applies to a redirect location: the model states the location string before it.
- The reselection of the selected seat after each fetch in `fetchSeats`, the polling interval and the error toast: React state and timers.
- FastAPI routing, pydantic validation, CORS and environment loading: framework plumbing.
- The session middleware: `backend/main.py` installs none (it adds only `CORSMiddleware`, lines 22-31). The model assumes one is installed. As written, every seat route fails with 500 and every otherwise successful callback ends in `?error=auth_failed` after the employee upsert. `Auth.CurrentUserAsWritten`, `Auth.CallbackAsWritten` and `Service.StepAsWritten` model that, as listed under "## Findings".
- The difference between a seat document without `booked_by` and one with `booked_by: null`: the response model serialises both as null, and the model keeps neither distinction.
- Auth.LoginUrlParams: the read-back is proved only for configured values without `&` and an endpoint without `?`. With such characters the unencoded URL does not read back, and the model says nothing about what a provider then reads. The read-back is that of `QueryParams`, which does not split off a `#` fragment: a browser drops everything after a `#` in a configured value before the provider sees the request, and the model does not state that.
- Auth.CallbackErrorCodes: the read-back is proved only when the front-end URL has no `?`, and a provider error containing `&` is excluded from it, for the same reason. The exact redirect location of every failure is still stated by `Auth.Callback`, with no such restriction.
- Schemas.EmployeeDocument: `first_login_at ≤ last_login_at` holds because the second clock read is modelled as `now + elapsed` with `elapsed` a natural number. `datetime.utcnow()` reads the wall clock, which can step back between the two reads; the model assumes it does not.

## Findings

| source | as written | input that shows it | evidently intended | confidence | as-written member | corrected member |
|---|---|---|---|---|---|---|
| backend/auth.py:84-94 with backend/main.py:22-31 | No session middleware is installed, so the session write after the upsert raises, and the `except Exception` turns a valid login into `?error=auth_failed` | A callback with `code=c`, no `error`, and an ID token whose claims are `{"uid": "alice"}` on an empty employees collection: `alice` is inserted and the redirect is `FRONTEND_URL?error=auth_failed` | Redirect to `FRONTEND_URL` with the user in the session | high; not executed | Auth.CallbackAsWritten, Auth.FirstLoginReportedAsFailed | Auth.Callback |
| backend/auth.py:97-101 with backend/main.py:22-31 | `request.session` raises without a session middleware, so `/seats`, `/book` and `/release` answer 500 to every caller and no seat is ever booked | Start-up on an empty database, then `POST /book` for seat 1 from any client: 500, and seat 1 stays available | 401 without a signed-in user, otherwise the route runs | high; not executed | Auth.CurrentUserAsWritten, Service.StepAsWritten, Service.NoSeatBookedAsWritten | Auth.CurrentUser, Service.Step, Service.StartedServiceBooks |
