# Hotel reservations: a Dafny model

This project models the logic of a small hotel-booking web application. The
application is an Express server over an Oracle database, plus a React front end.

The server part models:
- the availability listing of rooms for a date interval;
- the double-booking check made when a reservation is created;
- the room create, update and delete endpoints;
- registration and login, whose e-mail match is case- and space-insensitive.

The front-end part models:
- the admin panel: de-duplicating room ids and the panel's state handlers;
- the route guard;
- the registration checks;
- the handling of the login answer;
- the reservations page's date formatting and booking guard.

Modules:

- `Optional`, `Sequences`, `Text` (text.dfy):
  - an option type;
  - an order-keeping filter with its lemmas;
  - ASCII case mapping;
  - JavaScript `trim` versus Oracle `TRIM`, which trims spaces only;
  - decimal rendering and `parseInt(s, 10)`, with round-trip lemmas.
- `JsValues` (js_values.dfy):
  - JSON field values (`undefined`, `null`, number, text);
  - truthiness;
  - `Number()`, `String()` and `parseFloat`;
  - Oracle storing the empty string as NULL;
  - the HTTP `Reply` type.
- `Availability` (availability.dfy):
  - rooms and reservations;
  - the strict half-open overlap test;
  - the no-double-booking invariant;
  - the listing of `GET /api/habitaciones/disponibles`.
- `Accounts` (accounts.dfy):
  - users, and the `UPPER(TRIM(email))` match;
  - `POST /api/login`;
  - the unique-e-mail invariant.
- `Database` (database.dfy): `class Hotel`, whose tables are sequence fields and whose ids come from counters. Each write endpoint is a method. Every method keeps `Valid()`, which combines three facts:
  - ids are below their counters;
  - no room is double-booked;
  - e-mails are unique.
- `AdminPanel` (admin_panel.dfy):
  - the id counting loop and the duplicate warning;
  - the temporary keys given to rooms whose id is unusable;
  - `class Panel` with the page's state and handlers. Its invariant: keys are distinct, and the selection names a listed room.
- `ProtectedRoute`, `Registro`, `Home`, `ReservationsPage`: the pure decisions of the other pages, with lemmas that connect them to the server model.

Three behaviours of the code a reader might not expect:
- **Interval check:** the reservation endpoint does not reject a booking whose end is not after its start (`Database.DegenerateBookingAcceptedTwice`).
- **Blocking status:** every reservation whose status is not `'cancelada'` blocks, not only confirmed ones.
- **Listed rooms:** both the dated and the undated listing compare the stored status with the exact text `'disponible'`, so a room stored as `'Disponible'` is never listed (`Database.CapitalisedStatusIsNeverListed`). The undated listing shows a missing type as `''`, the dated one as `'Sin tipo'`.

## Model

| member | source | states |
|---|---|---|
| JsValues.ParseIntField | backend/server.js:423-424 | a numeric field reads back as its own value |
| JsValues.ParseFloat | backend/server.js:261 | an integer text reads as what `parseInt` reads from it |
| JsValues.ParseFloatTruncates | backend/server.js:261 | the model's `parseFloat` is NaN exactly when no number is read, and otherwise the exact number read without its fraction |
| JsValues.HalfPrice | backend/server.js:261 | `.5` is read as 0.5, whose integer part 0 is what the model stores |
| JsValues.PriceWithCents | backend/server.js:312 | `12.75` is read as 12.75, and the model stores 12 |
| JsValues.ParseFloatField | backend/server.js:261 | a numeric field reads back as its own value; a missing or null field is NaN |
| JsValues.StringToNumber | frontend/src/pages/AdminPanel.js:34 | blank text is 0, and an integer `Number` reads from non-blank text is the one `parseInt` reads |
| JsValues.NumberAgreesWithParseInt | frontend/src/pages/AdminPanel.js:52-59 | wherever `Number` reads an integer from non-blank text, `parseInt` reads the same integer |
| Availability.OverlapsIffSharedInstant | backend/server.js:435-438 | for a well-formed interval, the conflict test holds exactly when the two half-open intervals share an instant |
| Availability.InvertedRequestStillOverlaps | backend/server.js:435-438 | an inverted request (end before start) still counts as overlapping, although it contains no instant |
| Availability.TouchingIntervalsDoNotOverlap | backend/server.js:435-438 | an interval that starts where a reservation ends, or ends where it starts, does not conflict with it |
| Availability.Overlaps | backend/server.js:435-438 | the strict test `fecha_inicio < :fin AND fecha_fin > :inicio`; what it means is stated by OverlapsIffSharedInstant |
| Availability.CountConflicts | backend/server.js:431-449 | the `COUNT(*)` of conflicting reservations never exceeds the number of reservations |
| Availability.CountConflictsPositive | backend/server.js:431-449 | the `COUNT(*)` of conflicting reservations is positive exactly when some reservation of the room is not cancelled and overlaps |
| Availability.AppendKeepsNoDoubleBooking | backend/server.js:455-476 | inserting a reservation that conflicts with none keeps every room free of double bookings |
| Availability.FilterKeepsNoDoubleBooking | backend/server.js:393-396 | removing any reservations keeps the no-double-booking invariant |
| Availability.NormaliseRoom | backend/server.js:100-106 | the row's id is kept; a missing type gets the default; a missing price shows as 0; the status is lower case and a missing one shows as `disponible` |
| Availability.ListRooms | backend/server.js:82-107 | one view per row, in order: each row shaped by `NormaliseRoom` with an empty default type, so every field is as that row states |
| Availability.BlockedRooms | backend/server.js:174-186 | a room is in the reserved set exactly when a live reservation of it overlaps the interval |
| Availability.Listing | backend/server.js:188-204 | the listing never has more entries than the table has rows |
| Availability.ListingMembers | backend/server.js:188-204 | a view is listed exactly when it comes from a row whose status is exactly `disponible` and that is not reserved |
| Availability.ListingConcat | backend/server.js:188-204 | the listing is computed row by row: listing two catalogs one after the other equals concatenating their listings |
| Availability.ListAvailable | backend/server.js:120-205 | the 400 for dates is answered exactly when both dates are given and one does not parse; otherwise a list no longer than the table |
| Availability.DatedListingIsFreeRooms | backend/server.js:146-205 | for two parsed dates, a room is listed exactly when its status is `disponible` and no live reservation overlaps the interval |
| Availability.UndatedListingIgnoresReservations | backend/server.js:126-144 | without both dates, the listing does not depend on reservations and holds exactly the `disponible` rooms |
| Availability.CancelledNeverBlocks | backend/server.js:177 | adding a cancelled reservation never changes any listing |
| Availability.LiveOverlapHidesRoom | backend/server.js:177-186 | a live reservation that overlaps the interval hides its room |
| Availability.EmptyCatalogListsNothing | backend/server.js:169-172 | an empty catalog gives an empty list |
| Availability.BookingExamples | backend/server.js:435-438 | [10,12) blocks [11,13); [10,12) does not block [12,14) |
| Text.TrimOfPadded | backend/server.js:52 | blanks around a text never change what trimming yields |
| Text.TrimSplits | backend/server.js:52 | trimming removes blanks only: the text is its trimmed form with blanks before and after |
| Text.UpperProperties | backend/server.js:52 | `UPPER` keeps the length, leaves no lower-case letter, changes only the case of letters, and leaves upper-case text alone |
| Text.LowerProperties | backend/server.js:103 | `toLowerCase` leaves no upper-case letter, changes only the case of letters, and leaves lower-case text alone |
| Text.ParseIntOfRendered | backend/server.js:423-424 | `parseInt(s, 10)` reads a rendered integer back and stops before any text that does not start with a digit |
| Text.ParseIntRoundTrip | backend/server.js:309 | `parseInt` of a rendered integer is that integer |
| Accounts.EmailKey | backend/server.js:52 | an e-mail has a key only when it is not empty, and the key is upper case |
| Accounts.FirstWithEmail | backend/server.js:48-56 | finds the first user whose stored e-mail matches, or reports that none does |
| Accounts.CountWithEmailPositive | backend/server.js:607-619 | the registration `COUNT(*)` is positive exactly when some user's e-mail matches |
| Accounts.Login | backend/server.js:38-73 | 400 exactly when a credential is missing; 401 `Credenciales inválidas` exactly when no e-mail matches, 401 `Contraseña incorrecta` exactly when the first match's trimmed password differs; a success is 200 and carries the data of a user whose e-mail matches |
| Accounts.LoginSucceedsIff | backend/server.js:42-72 | with unique e-mails, login returns a user's data exactly when that user's e-mail matches and the trimmed passwords are equal (both directions) |
| Accounts.LoginIgnoresEmailCaseAndSpaces | backend/server.js:52 | two e-mails equal after `UPPER(TRIM())` give the same login answer |
| Accounts.LoginTrimsPassword | backend/server.js:63-65 | white space around the submitted password does not change the answer |
| Accounts.LoginSeesTrimmedPassword | backend/server.js:63-65 | two non-empty passwords with the same trimmed text give the same login answer |
| Accounts.BlankEmailNeverLogsIn | backend/server.js:48-59 | an e-mail of spaces only (NULL after `TRIM`) never logs in |
| Accounts.AppendKeepsUniqueEmails | backend/server.js:621-638 | inserting a user whose e-mail matches none keeps e-mails unique |
| Accounts.LoginAfterRegistering | backend/server.js:591-645 | after a user is registered with a fresh e-mail, logging in with its e-mail and password returns its data |
| Database.Hotel.constructor | backend/server.js:266-270 | the tables start empty and each identity column starts at 1 |
| Database.RepeatedBookingConflicts | backend/server.js:431-452 | once a well-formed request is booked, the same request again conflicts |
| Database.DegenerateBookingAcceptedTwice | backend/server.js:414-452 | a request whose end is not after its start, accepted once, is not blocked by its own earlier booking and is accepted again |
| Database.UpdateReadBack | backend/server.js:315-361 | the room returned after an update shows the new type, price and description, with a lower-case status |
| Database.UpdateWithoutStatusIsNeverListed | backend/server.js:318-334 | an update without a status stores NULL, which reads back as `disponible` but is never listed as available |
| Database.CapitalisedStatusIsNeverListed | backend/server.js:268-276 | a room created with status `Disponible` reads back as `disponible` but is never listed as available |
| Database.Hotel.CreateReservation | backend/server.js:414-495 | 400 for missing data, 400 for ids that do not parse, 500 for dates that do not parse, 409 on a conflict (each iff); otherwise a confirmed reservation with a fresh id is appended and returned with 201; failures change nothing; the invariants hold |
| Database.Hotel.CreateRoom | backend/server.js:256-291 | 400 exactly when the type is missing or the price is not a number; otherwise a row with the status defaulted to `disponible` is appended under a fresh id and returned with 201 |
| Database.Hotel.UpdateRoom | backend/server.js:306-361 | 400 exactly when the id or the price does not parse; otherwise every row with the id is overwritten; 404 exactly when none had it, and 200 with the re-read room whenever one did |
| Database.Hotel.DeleteRoom | backend/server.js:374-404 | 400 for an unparsable id; 404 when no room has it; it succeeds exactly when a room has it, and then the room and all its reservations are removed and the rest are kept in order |
| Database.Hotel.Register | backend/server.js:591-645 | 400 for a missing field, 400 for a password under 6 characters, 409 exactly when the fields pass and an e-mail matching ignoring case and spaces is taken; otherwise a `cliente` user is appended with a fresh id, and can then log in |
| AdminPanel.IdKeys | frontend/src/pages/AdminPanel.js:33-34 | one key `String(Number(id))` per room, in order |
| AdminPanel.IdCounts | frontend/src/pages/AdminPanel.js:32-40 | the keys of the count table are exactly the keys that occur |
| AdminPanel.OccurrencesIsMultiplicity | frontend/src/pages/AdminPanel.js:32-40 | each count is the key's multiplicity |
| AdminPanel.CountOneIffUnique | frontend/src/pages/AdminPanel.js:53 | a key counts 1 exactly when no other room has it |
| AdminPanel.IdCountsSnoc | frontend/src/pages/AdminPanel.js:35-39 | one loop step adds 1 to a present key, or sets a new key to 1 |
| AdminPanel.CountKeys | frontend/src/pages/AdminPanel.js:32-40 | the counting loop builds exactly the multiplicity table |
| AdminPanel.ZeroKey | frontend/src/pages/AdminPanel.js:43 | the key `'0'` comes exactly from the number 0 |
| AdminPanel.WarningIffSuspicious | frontend/src/pages/AdminPanel.js:42-49 | the warning is raised exactly when some room's id is shared, is 0, or is not a number |
| AdminPanel.StatusOf | frontend/src/pages/AdminPanel.js:60 | the status is shown lower case, never empty, and equals a present status up to case |
| AdminPanel.NormaliseRoom | frontend/src/pages/AdminPanel.js:51-64 | the original id is kept; a room keeps its numeric id exactly when it is usable, otherwise gets a `-temp-index` key and is flagged; the type defaults to `Sin tipo`, a price `Number()` cannot read shows as 0, the status is `StatusOf`'s and the description defaults to empty |
| AdminPanel.NormaliseRooms | frontend/src/pages/AdminPanel.js:51-64 | one normalised room per fetched room, in order, at its index |
| AdminPanel.KeepsIdIffPositiveAndUnique | frontend/src/pages/AdminPanel.js:53-56 | a room keeps its id exactly when it is a positive number no other room has |
| AdminPanel.WarningImpliesIssue | frontend/src/pages/AdminPanel.js:42-63 | when the warning is shown, some room is flagged |
| AdminPanel.NegativeIdIsNotWarned | frontend/src/pages/AdminPanel.js:42-56 | a lone id of -5 raises no warning, yet the room is flagged and gets a temporary key |
| AdminPanel.TempKeyInjective | frontend/src/pages/AdminPanel.js:56 | two temporary keys are equal only for the same id and index |
| AdminPanel.KeyForDistinct | frontend/src/pages/AdminPanel.js:53-56 | kept ids and temporary keys never collide as text |
| AdminPanel.NormalisedKeysDistinct | frontend/src/pages/AdminPanel.js:51-66 | after normalisation every room has a distinct key, as text too |
| AdminPanel.ApiIdTargetsOriginalId | frontend/src/pages/AdminPanel.js:132 | the id sent to the server reads back through `parseInt` as the room's original numeric id, when it has one |
| AdminPanel.TempKeyReadsBack | frontend/src/pages/AdminPanel.js:56 | `parseInt` reads a temporary key back as the number it was made from, and finds no number in one made from NaN |
| AdminPanel.KeepPriceChars | frontend/src/pages/AdminPanel.js:116 | the filtered price holds exactly the digits and dots of the input |
| AdminPanel.KeepPriceCharsIdentity | frontend/src/pages/AdminPanel.js:116 | an input of digits and dots is left as it is |
| AdminPanel.KeepPriceCharsIdempotent | frontend/src/pages/AdminPanel.js:116 | filtering twice equals filtering once |
| AdminPanel.WithInput | frontend/src/pages/AdminPanel.js:112-118 | only the named field changes; the price is filtered |
| AdminPanel.UpdateSelected | frontend/src/pages/AdminPanel.js:140-144 | rooms with the key take the payload; the others are unchanged |
| AdminPanel.UpdateSelectedChangesOne | frontend/src/pages/AdminPanel.js:140-144 | with distinct keys, exactly the selected room changes, and keys stay distinct |
| AdminPanel.DeleteKeepsOthers | frontend/src/pages/AdminPanel.js:221 | removing the selected room leaves the other rooms, in order |
| AdminPanel.DeleteKeepsDistinctKeys | frontend/src/pages/AdminPanel.js:221 | removing rooms keeps keys distinct |
| AdminPanel.FindRoom | frontend/src/pages/AdminPanel.js:88-91 | finds a listed room with the key, or reports that none has it |
| AdminPanel.Panel.constructor | frontend/src/pages/AdminPanel.js:7-17 | no rooms, no selection, empty form, loading, no error or warning |
| AdminPanel.Panel.SelectedRoom | frontend/src/pages/AdminPanel.js:88-91 | the selected room is a listed room with the selected key |
| AdminPanel.Panel.FetchRooms | frontend/src/pages/AdminPanel.js:20-74 | on data, the rooms become the normalised list, with distinct keys, and the warning is raised exactly for suspicious ids; on a bad format or a failure, the matching error is shown and the rooms are kept; loading ends |
| AdminPanel.Panel.Mount | frontend/src/pages/AdminPanel.js:76-78 | the first fetch on mount, with nothing selected: the rooms, the error text and the warning as the fetch sets them |
| AdminPanel.Panel.ResetForm | frontend/src/pages/AdminPanel.js:193-201 | clears the selection and the form, and nothing else |
| AdminPanel.Panel.SelectRoom | frontend/src/pages/AdminPanel.js:93-110 | selecting the selected room again clears the selection; otherwise the room is selected and the form shows its fields |
| AdminPanel.Panel.ChangeInput | frontend/src/pages/AdminPanel.js:112-118 | the form takes the input, and nothing else changes |
| AdminPanel.Panel.ChangeStatus | frontend/src/pages/AdminPanel.js:120-153 | without a selection nothing happens; otherwise a PUT is sent for the original id; on success the room and the form take the lower-case status; on failure the server's error is shown |
| AdminPanel.Panel.ApplyStatus | frontend/src/pages/AdminPanel.js:139-146 | the rooms with the selected key take the payload, the form takes its status and the error is cleared; keys stay distinct and the selection stays listed |
| AdminPanel.RefusedPriceIff | frontend/src/pages/AdminPanel.js:159-162 | a price is sent exactly when `parseFloat` reads a number above zero, whose integer part is then not negative |
| AdminPanel.RefusedPriceExamples | frontend/src/pages/AdminPanel.js:159-162 | `.5` is sent although its integer part is 0, and `abc` is refused |
| AdminPanel.Panel.Submit | frontend/src/pages/AdminPanel.js:155-191 | a price `parseFloat` does not read as a number above zero is refused with nothing sent; otherwise a PUT for the selection, or a POST, is sent with the price's integer part; on success the rooms are fetched again, the warning is raised exactly for suspicious ids of the new list, and the form is reset |
| AdminPanel.Panel.DeleteSelected | frontend/src/pages/AdminPanel.js:203-230 | without a selection or confirmation nothing happens; otherwise a DELETE is sent; on success exactly the selected room is removed and the form is reset; on failure the delete error is shown |
| ProtectedRoute.Guard | frontend/src/components/ProtectedRoute.js:3-15 | the page renders only for a stored user whose `rol` is the required role, when one is required |
| ProtectedRoute.GuardRendersIff | frontend/src/components/ProtectedRoute.js:3-15 | the page renders exactly for a stored user that has the required role, when one is required |
| ProtectedRoute.NoUserRedirects | frontend/src/components/ProtectedRoute.js:7-9 | without a stored user the guard always redirects home |
| ProtectedRoute.RoleMustMatchExactly | frontend/src/components/ProtectedRoute.js:11-13 | a role matches only as the same text; a missing or numeric `rol` is refused |
| ProtectedRoute.NoRoleRendersForAnyUser | frontend/src/components/ProtectedRoute.js:11-14 | a route without a role admits any stored user |
| ProtectedRoute.RouteRole | frontend/src/App.js:15-24 | only `/admin` and `/reservations` require a role, and a required role is never empty |
| Registro.ValidateRegistration | frontend/src/pages/Registro.js:22-32 | a request is sent only with matching passwords of at least 6 characters; a refusal is the mismatch or the length message |
| Registro.SendsIff | frontend/src/pages/Registro.js:22-45 | the request is sent exactly when the passwords match and have at least 6 characters, and it carries the typed fields |
| Registro.MismatchTakesPrecedence | frontend/src/pages/Registro.js:22-26 | a mismatch is reported before the length |
| Registro.ShortPasswordRefused | frontend/src/pages/Registro.js:28-32 | a matching password under 6 characters is refused with the length message |
| Registro.SameLengthRuleAsServer | frontend/src/pages/Registro.js:28-32 | the page refuses a password for length exactly when it is under 6 characters, with the server's own message |
| Home.TargetFor | frontend/src/pages/Home.js:119 | the target is `/admin` exactly for the role `admin` |
| Home.HandleLogin | frontend/src/pages/Home.js:101-119 | the user is stored only from an OK answer with a truthy id and role, and the page goes to `/admin` exactly for the role `admin` |
| Home.StoresIff | frontend/src/pages/Home.js:101-119 | the user is stored exactly for an OK JSON answer with an id and a role, and what is stored is that answer |
| Home.FailureMessage | frontend/src/pages/Home.js:108-110 | a refusal shows the server's error, or else `Error HTTP: ` and a status that reads back |
| Home.LoginErrorsReachThePage | frontend/src/pages/Home.js:101-110 | every refusal of the login endpoint is shown as its own message |
| Home.LoginLandsOnGuardedPage | frontend/src/pages/Home.js:112-119 | a successful login goes to its role's page, whose guard admits it exactly when the role is `admin` or `cliente` |
| Home.RegisteredClientReachesReservations | frontend/src/pages/Home.js:112-119 | a freshly registered user logs in, lands on `/reservations`, and is admitted there |
| ReservationsPage.Pad2 | frontend/src/pages/Reservations.js:10-11 | a text under 2 characters gets a leading `0`; a longer one is left |
| ReservationsPage.TwoDigits | frontend/src/pages/Reservations.js:8-11 | a month or day becomes exactly two digits with its value |
| ReservationsPage.FormatDateForInput | frontend/src/pages/Reservations.js:6-14 | the text is the year then six characters |
| ReservationsPage.FormatDateRoundTrip | frontend/src/pages/Reservations.js:6-14 | the text reads back as the year, the month counted from 1, and the day |
| ReservationsPage.PaddingCases | frontend/src/pages/Reservations.js:10-11 | values under 10 get a leading zero; two-digit values are unchanged |
| ReservationsPage.HandleReservation | frontend/src/pages/Reservations.js:47-55 | a request is sent only with a truthy room |
| ReservationsPage.ReservationSentIff | frontend/src/pages/Reservations.js:47-55 | the page alerts exactly when no room is selected; otherwise it sends the user, the room and both dates |
| ReservationsPage.RoomZeroIsNeverSent | frontend/src/pages/Reservations.js:48 | a room numbered 0 can never be reserved from the page |

## Left out

- Database access, connections, commits, rollbacks and logging are not modelled. Each endpoint sees its tables as the class's fields. The 500 paths that come from a failing driver are left out, except the one a date that does not parse creates.
- Date parsing (`new Date`, `TO_DATE`, `TO_TIMESTAMP_TZ`, `toISOString`) is not modelled. A date reaches the model as a parsed instant (an integer), as absent, or as unparsable. The dated listing's truncation of both bounds to whole days is not modelled.
- Database.Hotel.CreateReservation: its 500 reply carries only the fixed prefix, not the driver's message.
- Stored and displayed prices are integers. `parseFloat` is modelled over an optional sign, digits and at most one decimal point. The panel's `precio <= 0` test uses the exact number read (`FloatValue`). Where a price is stored or sent, only its integer part is kept: `.5` is stored as 0.
- `parseFloat` of exponents (`1e3`) and of `Infinity` is left out: the model reads only the part before the `e`, and finds no number in `Infinity`.
- `Number()` is modelled over integer texts only. Fractions, exponents, `Infinity` and `0x`, `0o` or `0b` literals give NaN in the model, where JavaScript reads a number.
- `parseInt` on the route parameter is modelled with radix 10. The `0x` prefix of JavaScript's radix-less `parseInt` is left out.
- A reservation's status is never NULL. SQL's three-valued comparison of a NULL status is left out.
- Text lengths count characters, not UTF-16 code units. Case mapping is ASCII only: `toLowerCase` and Oracle's `UPPER` of other letters are left out.
- The schema's foreign keys and uniqueness constraints are not modelled. Room ids are fresh by construction.
- Concurrency is left out. The gap between the conflict check and the insert, which concurrent bookings can race through, is outside the sequential model.
- `GET /api/habitaciones/:id`, `GET /api/reservas`, `/api/test-connection` and `/api/debug/habitaciones` are not part of this model.
- Request bodies carry numbers and text only; the login and registration fields, and the room endpoints' `tipo`, `estado` and `descripcion`, carry text only (see the Accounts.Login and Database.Hotel.Register lines). A numeric `estado` in a room update makes `toLowerCase()` throw, so the server answers 500; the model does not capture that. Boolean, array and object fields, and `String()` of them, are left out.
- Accounts.Login: the 500 reply for a failing query is left out. The fields are text or absent. A numeric `contrasena` is left out: its `trim()` throws, and the server answers 500.
- Accounts.Login: a NULL stored password is left out. Oracle stores `''` as NULL, so `CONTRASENA.trim()` throws on such a row and the server answers 500. The model compares it as `""`, which a blank submitted password matches (this also holds for Accounts.LoginSucceedsIff). A NULL `NOMBRE` is returned as `null`; the model returns `""`.
- Numbers are exact unbounded integers. The precision of JavaScript's doubles and their exponent rendering are left out: `String(1e21)` is `1e+21`, so `parseInt(1e21, 10)` is 1 and `String(Number(id))` shows `1e+21`, where the model keeps every decimal digit.
- Database.Hotel.Register: the fields are text or absent. A numeric `contrasena` is left out: its `length` is undefined, so it skips the 6-character check and the server registers it.
- AdminPanel.Panel.Submit: the `TypeError` a selection without a listed room would raise is left out, because `Panel.Valid()` rules that state out.
- ProtectedRoute.Guard: the stored user is modelled as present or absent. A stored JSON value that parses to another falsy value, or does not parse, is left out.
- The front end's network calls are parameters: the outcome of each request is given to the handler. Navigation and `localStorage` are outcomes the functions return.
- `formatPrice`, the rendering of the pages, and `RoomDetails.js` are not part of this model.
- ReservationsPage.HandleReservation: the dates are the texts the page sends. Their `toISOString` form is not modelled.
