# Meeting-room scheduling service — Dafny model

A model of the core of a small meeting-room booking service (an Express application in `app.js`).
Users log in with a username and password and receive a bearer token; every later request passes an
authentication gate that turns the token back into a user; an authenticated user books a room for a
time window, lists all bookings, and cancels bookings they own. The service promises that no room is
ever double-booked: two bookings of the same room never share an instant of their half-open windows
`[start, end)`.

Modules, one per component of the service:

- `Wrappers` (`wrappers.dfy`): `Option` and `Result`.
- `Errors` (`errors.dfy`): the failures a handler reports: `Unauthenticated` (with the reason: bad
  credentials, missing header, header without a token word, token of no known user), `RoomNotFound`,
  `InvalidRange`, `Conflict`, `NotFound`, `Forbidden`. HTTP status codes and messages are not modelled.
- `Text` (`text.dfy`): JavaScript's `split` on a one-character separator, with `Join` as its reference,
  and the decimal text of the `Date.now()` timestamp, with its parse as reference.
- `Identity` (`identity.dfy`): users and the seed users, the credential lookup, the token text
  `<userId>:<timestamp>`, the base64 codec as an abstract pair of functions, login and the gate.
- `Catalog` (`catalog.dfy`): rooms, the seed rooms and the room-existence test.
- `Intervals` (`intervals.dfy`): the overlap test on half-open windows and its meaning.
- `Schedule` (`schedule.dfy`): appointments, the conflict scan, `findIndex`, the consistency
  invariant, and the create and cancel decisions as functions with the lemmas about them.
- `Service` (`service.dfy`): class `Scheduler`, holding the users, rooms and codec as constants and the
  appointment list as its one mutable field; its methods are the route handlers, proved against the
  `Schedule` functions and keeping `Valid()` (the consistency invariant). A client method replays a
  morning of bookings.

Modelling choices:

- Instants are integers (milliseconds, as JavaScript dates compare). The source stores the ISO-8601
  text of each instant and parses it back for each comparison; with integers that round trip is the
  identity.
- Ids are strings. The uuid drawn for a new appointment is a parameter of the create operation,
  required to be fresh (not the id of a stored appointment), which is what uuid generation provides.
  Seed user and room ids are parameters of the seed lists; the token properties assume they are
  distinct and colon-free (`WellFormedIds`), as uuids are.
- Base64 is a `Codec` value holding two total functions. The properties that need it assume
  `Sound(codec)`: decoding undoes encoding and an encoding uses only the base64 alphabet. Decoding a
  string that is not an encoding may yield anything, so the gate's behaviour on arbitrary tokens is
  stated in terms of whatever the decode returns.
- Clock: `Date.now()` is the parameter `now`.

Behaviour of the code that the model keeps as written:

- The room check comes before the window check, so an unknown room with an empty window fails with
  `RoomNotFound`, not `InvalidRange` (`CreateEmptyWindow`).
- `GET /rooms` is registered after `app.use(authenticate)`, so room listing is gated like everything
  else except login (`Scheduler.GetRooms`).
- The decoded token is destructured into an id and a timestamp, but the timestamp is never examined
  and nothing is signed: `ForgedTokenAccepted` shows that any encoded text starting with a known id
  and a colon is accepted as that user.
## Model

The rows name the members whose contracts state each property. Several functions that model source
lines carry no contract of their own and are described by the lemmas about them:
`Schedule.TryCreate` (app.js:268-304) and `Schedule.AfterCreate` (app.js:302) by the `Create…` lemmas;
`Schedule.TryCancel`'s list `Schedule.AfterCancel` (app.js:403) by the `Cancel…` lemmas;
`Intervals.Overlaps` (app.js:287) by the `Intervals` lemmas and `Schedule.CreateConflictIffSharedInstant`;
`Identity.TokenPayload` (app.js:141) by `PayloadSplit`, `PayloadUserIdExact` and
`LoginAuthenticateRoundTrip`; `Identity.TokenUserId` (app.js:72-74) by `Authenticate`'s contract,
`ForgedTokenAccepted` and `UnknownUserRejected`; `Identity.SeedUsers` (app.js:14-17) by `SeedLogins`;
`Catalog.SeedRooms` (app.js:19-23) by `SeedRoomsExist`.

| member | source | states |
|---|---|---|
| `Text.Split` | app.js:74 | `split` on one character yields at least one piece and no piece holds the separator |
| `Text.JoinSplit` | app.js:74 | joining the pieces of a split with the separator gives back the original string |
| `Text.SplitJoin` | app.js:74 | splitting a join of separator-free pieces gives back exactly those pieces (split and join are inverse) |
| `Text.SplitWithoutSeparator` | app.js:72 | a string without the separator splits into itself alone |
| `Text.SplitAtFirstSeparator` | app.js:74 | the first piece of `a:b` is `a` when `a` has no colon, and the other pieces are those of `b` |
| `Text.Decimal` | app.js:141 | the timestamp text is a non-empty digit string without leading zeros |
| `Text.DecimalRoundTrip` | app.js:141 | the timestamp text denotes exactly the instant it was made from |
| `Text.DecimalHasNoSeparators` | app.js:141 | the timestamp text holds neither a colon nor a space |
| `Identity.FindByCredentials` | app.js:138 | finds nothing exactly when no user matches both username and password; otherwise the first user matching both |
| `Identity.FindById` | app.js:75 | finds nothing exactly when no user has the id; otherwise the first user with that id |
| `Identity.Login` | app.js:136-146 | login fails, with bad credentials, exactly when no user matches both fields |
| `Identity.Authenticate` | app.js:66-83 | a request is accepted exactly when the header is present and non-empty, has a second space-separated word, and the first colon piece of that word's decoding is the id of a known user, and it then resolves to such a user; every rejection is `Unauthenticated`: an absent or empty header, and only that, as a missing token; a header without a second word, and only that, as malformed; a second word whose decoded id names no user, and only that, as an invalid token |
| `Identity.PayloadSplit` | app.js:141 | splitting the payload `<id>:<timestamp>` on colons gives exactly the id and the timestamp text when the id has no colon |
| `Identity.PayloadUserIdExact` | app.js:74 | the first colon piece of the payload is the user id if and only if the id has no colon |
| `Identity.HeaderToken` | app.js:72 | the gate takes from `<scheme> <token>` exactly the token, whatever the scheme word |
| `Identity.LoginAuthenticateRoundTrip` | app.js:141 | the token a successful login issues, sent in a header, resolves to the very user who logged in |
| `Identity.ForgedTokenAccepted` | app.js:72-81 | any encoded text that starts with a known user id and a colon is accepted as that user (no integrity check, timestamp ignored) |
| `Identity.UnknownUserRejected` | app.js:75-79 | a token whose first colon piece names no user is rejected as invalid |
| `Identity.HeaderWithoutTokenRejected` | app.js:72-73 | a non-empty header with no space is never let through |
| `Identity.SeedLogins` | app.js:14-17 | each seed user logs in with its own credentials and gets a token for its own id; mixed credentials fail |
| `Catalog.RoomExists` | app.js:272 | true exactly when some room of the catalog has the id |
| `Catalog.SeedRoomsExist` | app.js:19-23 | the seed catalog knows exactly its three room ids |
| `Intervals.OverlapsIffSharedInstant` | app.js:287 | on non-empty windows the overlap test holds exactly when some instant lies in both half-open windows |
| `Intervals.OverlapsSymmetric` | app.js:287 | the overlap test does not depend on which window is the new one |
| `Intervals.TouchingWindowsDoNotOverlap` | app.js:287 | a window ending when another starts does not overlap it |
| `Intervals.ContainedWindowOverlaps` | app.js:287 | a non-empty window overlaps any window containing it |
| `Schedule.HasConflict` | app.js:285-288 | true exactly when some stored appointment is in the same room and overlaps the new window |
| `Schedule.FindIndex` | app.js:393 | -1 exactly when no appointment has the id; otherwise the position of the first one that does |
| `Schedule.TryCancel` | app.js:393-403 | a successful cancel names a position inside the list |
| `Schedule.CreateUnknownRoom` | app.js:272-275 | a room absent from the catalog fails with RoomNotFound and leaves the list unchanged |
| `Schedule.CreateEmptyWindow` | app.js:280-282 | start >= end is never booked: InvalidRange for a known room, RoomNotFound otherwise; the list is unchanged |
| `Schedule.CreateConflictIffSharedInstant` | app.js:285-292 | for a known room and non-empty window, Conflict exactly when a stored booking of that room shares an instant with it |
| `Schedule.CreateBesideExisting` | app.js:285-288 | a booking that only touches the room's bookings (end equal to another's start) is accepted |
| `Schedule.CreateAppends` | app.js:294-302 | succeeds exactly when the room exists, the window is non-empty and nothing clashes; then exactly one record (the given id, room, user, window) is appended and earlier entries keep their places; a failure changes nothing |
| `Schedule.CreatePreservesConsistency` | app.js:285-302 | with a fresh id, a create, successful or not, keeps ids distinct, windows non-empty, rooms known and no room double-booked |
| `Schedule.CancelUnknownId` | app.js:393-397 | an id not stored fails with NotFound and leaves the list unchanged |
| `Schedule.CancelByOtherUser` | app.js:399-401 | a user other than the owner gets Forbidden and the appointment stays |
| `Schedule.WithoutAbsentId` | app.js:393 | removing an id no entry has keeps the list as it is |
| `Schedule.SpliceRemovesOnlyThatId` | app.js:403 | with distinct ids, splicing out position k removes exactly the entry with that id and keeps the others in order |
| `Schedule.CancelByOwner` | app.js:399-403 | the owner's cancel succeeds and leaves exactly the other appointments in their relative order, one fewer |
| `Schedule.CancelTwice` | app.js:393-397 | after a successful cancel, cancelling the same id again fails with NotFound, whoever asks |
| `Schedule.CancelPreservesConsistency` | app.js:393-403 | a cancel, successful or not, keeps the list consistent |
| `Service.Scheduler.constructor` | app.js:14-25 | the service starts with the given users and rooms and no appointments, consistent |
| `Service.Scheduler.Book` | app.js:269-303 | the handler's result is the create decision and the new list is the old list plus, on success only, the new record; consistency is kept |
| `Service.Scheduler.Cancel` | app.js:390-404 | the handler succeeds as the cancel decision does, reports its error otherwise, and the new list is the decision's list; consistency is kept |
| `Service.Scheduler.ListAppointments` | app.js:345-347 | the list returned is the stored list, in insertion order |
| `Service.Scheduler.PostAppointment` | app.js:268-304 | a request the gate rejects fails with the gate's `Unauthenticated` error and changes nothing; otherwise the create runs for the resolved user |
| `Service.Scheduler.DeleteAppointment` | app.js:389-405 | a request the gate rejects fails with the gate's `Unauthenticated` error and changes nothing; otherwise the cancel runs for the resolved user |
| `Service.Scheduler.GetAppointments` | app.js:345-347 | the list is returned exactly when the gate accepts the request; otherwise the gate's `Unauthenticated` error |
| `Service.Scheduler.GetRooms` | app.js:187-189 | the room list is returned exactly when the gate accepts the request; otherwise the gate's `Unauthenticated` error |

## Left out

- Express wiring, JSON body parsing, the Swagger/OpenAPI documentation and `app.listen` (app.js:1-11, 27-63, 408-411): framework plumbing and I/O.
- HTTP status codes and message texts: each response is an `Errors.Error` value instead.
- uuid generation: a new appointment id is a parameter required to be fresh; seed ids are parameters.
- Date parsing (`new Date(...)`) and `toISOString()` normalisation: instants are integers, so malformed date input (which the source lets through to an exception in `toISOString`) is not modelled.
- The Node `Buffer` base64 and UTF-8 codec: an abstract `Codec` assumed `Sound`.
- The exception raised for a header without a token word: a non-empty authorization header with no space has no second word, the code hands `undefined` to `Buffer.from`, which throws, and Express answers with an internal error; the model instead rejects the request as `Unauthenticated(MalformedHeader)`, so the request still never reaches a handler but the distinct error response is not modelled.
- Concurrency: the source is a single-threaded event loop; each handler runs to completion.
