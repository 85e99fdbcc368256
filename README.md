# Restaurant reservations: the back-end rules, in Dafny

This project models the server side of a restaurant reservation system. The
server has two resources:

- **Reservations**: a guest's name, mobile number, date, time, party size and
  a status (`booked`, `seated`, `finished`, `cancelled`).
- **Tables**: a name, a capacity and, while occupied, the id of the
  reservation seated there.

Every route is a chain of middlewares followed by a handler. Each
middleware either passes the request on or reports an error `{ message,
status }`. A thrown error (a `TypeError`, or a database error) becomes a 500.
The model has these layers:

- `Values`: JavaScript payload values. `Truthy` is JS truthiness. `KeyOf` is
  how a body or path value selects a row by its integer key. `JsString` is
  template-literal rendering. `Split` and `JsNumber` are the `split(":")` and
  `Number(...)` that the business-hours check uses.
- `Calendar`: proleptic Gregorian dates counted in days from 1970-01-01, and
  the weekday. It also has the `YYYY-MM-DD` date parser, the time pattern of
  `validTime` written out, and the instants that the "in the past" check
  compares.
- `Pipeline`: an ordered chain of checks that reports its first failure.
  `Crash` stands for an exception reaching the error boundary.
- `Records`: the two kinds of rows, the two relations as maps keyed by id, the
  lookups and writes the service performs, and the `openTable` join.
- `Service`: the tables service (with the reservations service calls it sits
  beside) as a `Store` class. The class holds the two relations and the serial
  id counters. Its methods change them as the queries do.
- `ReservationChecks` / `TableChecks`: each middleware as a function of the
  request, and each route's chain in route order.
- `ReservationsController` / `TablesController`: the handlers as methods on a
  `Store`. Where a handler changes state, its `ensures` ties the reply and the
  new state to a specification function over the old state. Lemmas then state
  what those functions do: when a route succeeds, what it writes, which error
  it reports first, and that seating and freeing keep the seating relation
  consistent.

The application is described as a reservation lifecycle (booked, then seated,
then finished, with finished final, or cancelled). Where the code does
something else, the model follows the code:

- The status route enforces no transition graph. Any of the four statuses
  may be set on any unfinished reservation (`CancelledCanBeReseated`), so the
  status route can leave a seated reservation at no table
  (`StatusUpdateCanBreakConsistency`).
- The business-hours check accepts 10:30 and 21:30 themselves. It ignores
  seconds, so 21:30:59 is accepted.
- The full-edit route has no `validData` step. A request without `data`
  throws (a 500) instead of being answered with 400.
- The full-edit route has no finished check either. A payload that sends
  status "booked" turns a finished reservation back into a booked one
  (`EditRevivesFinished`).
- Freeing a table answers with the `openTable` join of the table just freed.
  That join is always empty, not the freed table.
- Freeing a table whose `reservation_id` selects no row writes the table
  first. The reservation write then throws, so the client gets a 500 after a
  partial write (`FreeDanglingReference`).
- `validDate` refuses 1970-01-01, because `Date.parse` gives 0 for that date
  and 0 is falsy.
- The "in the past" check takes the clock reading `Date.now()` as a parameter
  `now`. Both sides are read on one wall-clock timeline, in milliseconds.

## Model

| member | source | states |
|---|---|---|
| Values.NatToStringRoundTrip | back-end/src/tables/tables.controller.js:51-52 | reading back the decimal notation of a number gives the number |
| Values.KeyOfPathRoundTrip | back-end/src/tables/tables.service.js:13-14 | a route parameter written as the decimal id selects exactly the row with that id |
| Values.SplitWithoutSeparator | back-end/src/reservations/reservations.controller.js:139 | a string without ":" splits into itself alone |
| Values.SplitAfterPiece | back-end/src/reservations/reservations.controller.js:139-141 | splitting `a:b` where `a` has no ":" yields `a` as the first piece, then the pieces of `b` |
| Calendar.NextDateIsNextDay | back-end/src/reservations/reservations.controller.js:112 | the calendar successor of a valid date is valid and its day number is one more |
| Calendar.EpochIsThursday | back-end/src/reservations/reservations.controller.js:112 | day 0 is 1970-01-01 and its weekday is 4 (Thursday), as `getUTCDay` counts |
| Calendar.WeekdayAdvances | back-end/src/reservations/reservations.controller.js:112 | the weekday of the next date is the weekday plus one, modulo 7 |
| Calendar.ParseFormatDate | back-end/src/reservations/reservations.controller.js:63 | a valid date written as YYYY-MM-DD parses back to itself |
| Calendar.ParsedDateIsFormatted | back-end/src/reservations/reservations.controller.js:63 | a string that parses is the YYYY-MM-DD rendering of a valid date |
| Calendar.FormattedTimeMatches | back-end/src/reservations/reservations.controller.js:86-88 | a valid time written HH:MM or HH:MM:SS matches the time pattern and parses back to itself |
| Calendar.MatchingTimeIsFormatted | back-end/src/reservations/reservations.controller.js:86-88 | a string matching the pattern is the HH:MM or HH:MM:SS rendering of a valid time |
| Pipeline.FirstFailure | back-end/src/reservations/reservations.controller.js:258-297 | a chain passes iff every check passes, and otherwise reports the outcome of a failing check all of whose predecessors pass |
| Pipeline.FirstFailureIs | back-end/src/tables/tables.controller.js:179-188 | when check i fails and all before it pass, the chain reports check i |
| Pipeline.FirstFailureAppend | back-end/src/reservations/reservations.controller.js:260-274 | a chain made of two parts reports the first part's failure, or else whatever the second part reports |
| Records.FindByKey | back-end/src/tables/tables.service.js:13-19 | a lookup finds a row iff the value denotes a key present in the relation, and the row found has that key |
| Records.WriteTable | back-end/src/tables/tables.service.js:30 | updating by `table_id` replaces that row, keeps the key set, and leaves every other row unchanged |
| Records.WriteReservation | back-end/src/tables/tables.service.js:31-34 | updating by `reservation_id` replaces that row, keeps the key set, and leaves every other row unchanged |
| Records.WrittenReservationFound | back-end/src/tables/tables.service.js:46-49 | a reservation row just written under its id is what a lookup by that id returns |
| Records.OpenTable | back-end/src/tables/tables.service.js:3-7 | the join has at most one row, and has one iff the table exists and references an existing reservation |
| Service.NameLeTotal | back-end/src/tables/tables.service.js:10 | any two table names are ordered one way or the other |
| Service.NameLeTransitive | back-end/src/tables/tables.service.js:10 | the name order is transitive |
| Service.InsertByName | back-end/src/tables/tables.service.js:10 | inserting a table adds exactly that table to the multiset of tables |
| Service.InsertByNameSorted | back-end/src/tables/tables.service.js:10 | inserting into a list sorted by name keeps it sorted |
| Service.Store.List | back-end/src/tables/tables.service.js:9-11 | the list is sorted by table name and holds every table exactly once, with nothing else |
| Service.Store.Read | back-end/src/tables/tables.service.js:13-15 | the table is found iff the value denotes an existing key, and the row found has that key |
| Service.Store.ReadReservation | back-end/src/tables/tables.service.js:17-19 | the reservation is found iff the value denotes an existing key, and the row found has that key |
| Service.Store.Create | back-end/src/tables/tables.service.js:21-26 | inserts the table under a fresh serial id, returns the stored row, and leaves the reservations unchanged |
| Service.Store.CreateReservation | back-end/src/reservations/reservations.controller.js:230 | inserts the reservation under a fresh serial id and returns the stored row |
| Service.Store.UpdateReservation | back-end/src/reservations/reservations.controller.js:244 | rewrites the row with the record's id and returns the row read back |
| Service.Store.Update | back-end/src/tables/tables.service.js:28-36 | writes the table row, then the reservation row selected by the table's new reference, and returns the table read back |
| Service.Store.Destroy | back-end/src/tables/tables.service.js:38-52 | writes the table row; for a missing reservation it throws after that write; otherwise it writes the reservation and returns the join |
| ReservationChecks.BusinessHoursWindow | back-end/src/reservations/reservations.controller.js:137-155 | on a well-formed time, the check passes iff the time is between 10:30 and 21:30 inclusive, and otherwise reports the business-hours error |
| ReservationChecks.BusinessHoursOn | back-end/src/reservations/reservations.controller.js:137-155 | on a formatted time, the check passes iff the time is inside business hours |
| ReservationChecks.BusinessHoursIncludeBounds | back-end/src/reservations/reservations.controller.js:142-153 | 10:30 and 21:30 are accepted |
| ReservationChecks.BusinessHoursIgnoreSeconds | back-end/src/reservations/reservations.controller.js:148 | 21:30:59 is accepted |
| ReservationChecks.BusinessHoursExcludeOutside | back-end/src/reservations/reservations.controller.js:142-153 | 10:29 and 21:31 are rejected with the business-hours message |
| ReservationChecks.RuleChecksPass | back-end/src/reservations/reservations.controller.js:110-170 | on a well-formed date and time: inside business hours, not a Tuesday, not before `now`, and no status other than "booked" |
| ReservationChecks.FieldChainPasses | back-end/src/reservations/reservations.controller.js:31-107 | the seven field checks, run in route order, pass iff every field is well formed |
| ReservationChecks.FieldChainVerdict | back-end/src/reservations/reservations.controller.js:31-107 | with a body present, the field checks report, in route order, a missing first name, last name or mobile number, an unparseable date, a missing time, a time off the pattern and a non-positive or non-numeric party size, each with its 400 message, and pass otherwise |
| ReservationChecks.RuleChainPasses | back-end/src/reservations/reservations.controller.js:110-170 | the four rule checks, run in route order, pass iff the business rules hold and the status is absent or "booked" |
| ReservationChecks.PayloadChecksPass | back-end/src/reservations/reservations.controller.js:261-272 | the checks the create and edit chains share pass iff the payload is acceptable |
| ReservationChecks.CreateAcceptsExactly | back-end/src/reservations/reservations.controller.js:260-274 | the create chain passes iff there is a `data` object and it is an acceptable reservation |
| ReservationChecks.ResUpdateAcceptsExactly | back-end/src/reservations/reservations.controller.js:282-296 | the edit chain passes iff the reservation exists and the payload is acceptable; an existing reservation with no `data` throws |
| ReservationChecks.CreateVerdict | back-end/src/reservations/reservations.controller.js:260-274 | the create chain reports a missing body first, then the first failing field check, then the first broken business rule |
| ReservationChecks.ResUpdateVerdict | back-end/src/reservations/reservations.controller.js:282-296 | the edit chain reports an unknown id first (404), throws when the body has no `data`, and otherwise reports the first failing field check, then the first broken business rule |
| ReservationChecks.EpochDateRejected | back-end/src/reservations/reservations.controller.js:61-71 | 1970-01-01 is refused with "reservation_date must be valid" |
| ReservationChecks.JuneFourthIsTuesday | back-end/src/reservations/reservations.controller.js:110-113 | "2024-06-04" parses and falls on weekday 2 |
| ReservationChecks.JuneFifthIsWednesday | back-end/src/reservations/reservations.controller.js:110-113 | "2024-06-05" parses and falls on weekday 3 |
| ReservationChecks.NoonParses | back-end/src/reservations/reservations.controller.js:86-88 | "12:00" matches the time pattern and is 12:00:00 |
| ReservationChecks.NineParses | back-end/src/reservations/reservations.controller.js:86-88 | "09:00" matches the time pattern and is 09:00:00 |
| ReservationChecks.WednesdayNoonAccepted | back-end/src/reservations/reservations.controller.js:260-274 | a complete Wednesday-noon payload passes the create chain for any clock up to that instant |
| ReservationChecks.TuesdayRejected | back-end/src/reservations/reservations.controller.js:110-120 | a Tuesday payload is refused with "The restaurant is closed on Tuesday!" |
| ReservationChecks.BusinessHoursCheckedBeforeTuesday | back-end/src/reservations/reservations.controller.js:269-270 | on a Tuesday at 09:00 the business-hours error is the one reported |
| ReservationChecks.CreateChainAfterFields | back-end/src/reservations/reservations.controller.js:260-274 | once the body is present and every field is well formed, the create chain reports what the rule checks report |
| ReservationChecks.PayloadForPassesFields | back-end/src/reservations/reservations.controller.js:261-268 | a complete payload with a parseable date and a well-formed time passes every field check |
| ReservationChecks.RuleChainVerdict | back-end/src/reservations/reservations.controller.js:269-272 | on a well-formed date and time, the rule checks report an out-of-hours time first, then a Tuesday, then an instant before the clock, then a supplied status other than "booked", and pass otherwise |
| ReservationChecks.RulesDecideInOrder | back-end/src/reservations/reservations.controller.js:260-274 | for a complete well-formed payload, the create verdict is the first broken rule in that order, or a pass |
| ReservationsController.Create | back-end/src/reservations/reservations.controller.js:212-232 | an accepted payload is stored under a fresh id with its six fields and status "booked" and returned with 201; a refused one changes nothing and returns the first error |
| ReservationsController.CreatedReservationIsBooked | back-end/src/reservations/reservations.controller.js:212-229 | a created reservation is "booked" whatever status was sent, carries the new id, and holds the payload's first name, last name and mobile number (all present), its parseable date, its well-formed time and its positive party size |
| ReservationsController.UpdateStatus | back-end/src/reservations/reservations.controller.js:239-246 | the reply and the new reservations are those of the status-update specification |
| ReservationsController.StatusUpdateMissing | back-end/src/reservations/reservations.controller.js:8-19 | an id that selects no reservation gives 404 "Reservation <id> cannot be found" and changes nothing |
| ReservationsController.StatusUpdateUnknownStatus | back-end/src/reservations/reservations.controller.js:172-187 | a status outside the four known ones gives 400 "Unknown status <status>", even for a finished reservation |
| ReservationsController.StatusUpdateFinished | back-end/src/reservations/reservations.controller.js:189-197 | a finished reservation cannot be moved to any known status (400) |
| ReservationsController.StatusUpdateApplies | back-end/src/reservations/reservations.controller.js:276-281 | the update succeeds iff the reservation exists, is not finished and the status is known; then only its status changes; otherwise nothing changes |
| ReservationsController.CancelledCanBeReseated | back-end/src/reservations/reservations.controller.js:172-187 | a cancelled reservation can be set to "seated": no transition graph is enforced |
| ReservationsController.ResUpdatePassFacts | back-end/src/reservations/reservations.controller.js:282-296 | a passing edit chain has a loaded row, a `data` object and a numeric party size |
| ReservationsController.ResUpdate | back-end/src/reservations/reservations.controller.js:248-256 | the reply and the new reservations are those of the edit specification |
| ReservationsController.ResUpdateStoresPayload | back-end/src/reservations/reservations.controller.js:248-256 | an edit fails 404 for an unknown id and throws without `data`; it succeeds iff the reservation exists and the payload is acceptable, and then stores the payload's fields under the route's id, with the body's status when one is sent and the current status otherwise |
| ReservationsController.EditRevivesFinished | back-end/src/reservations/reservations.controller.js:282-296 | the edit route runs no finished check: an acceptable payload with status "booked" turns a finished reservation back into a booked one |
| ReservationsController.Read | back-end/src/reservations/reservations.controller.js:234-237 | the reply is that of the read specification, and nothing changes |
| ReservationsController.ReadFindsById | back-end/src/reservations/reservations.controller.js:8-19 | reading succeeds iff the parameter denotes an existing id, returns that row, and otherwise gives the 404 naming the parameter |
| TableChecks.CreateTableChecks | back-end/src/tables/tables.controller.js:63-83 | table creation reports a missing body, then a name shorter than two characters, then a non-positive capacity; it passes iff none of these holds |
| TablesController.List | back-end/src/tables/tables.controller.js:121-124 | replies 200 with every table exactly once, sorted by name |
| TablesController.Create | back-end/src/tables/tables.controller.js:130-139 | an accepted body is stored under a fresh id and returned with 201; a refused one changes nothing |
| TablesController.CreatedTableFields | back-end/src/tables/tables.controller.js:63-138 | a created table carries the new id, the body's name (two characters or more) and its positive capacity; its `reservation_id` is null for a missing or null body value and the id a value denotes otherwise, and any other value is refused by the insert |
| TablesController.Read | back-end/src/tables/tables.controller.js:126-128 | the reply is that of the read specification, and nothing changes |
| TablesController.ReadFindsTable | back-end/src/tables/tables.controller.js:50-61 | reading succeeds iff the parameter denotes an existing table, returns that row, and otherwise gives 404 "table_id <id> does not exist" |
| TablesController.SeatPassFacts | back-end/src/tables/tables.controller.js:179-188 | a passing seat chain has a free table, a body and an existing reservation that is not seated and fits the table |
| TablesController.SeatVerdict | back-end/src/tables/tables.controller.js:179-188 | the seat chain passes iff the seat is allowed |
| TablesController.Seat | back-end/src/tables/tables.controller.js:141-153 | the reply and the new database are those of the seat specification |
| TablesController.SeatSucceedsExactly | back-end/src/tables/tables.controller.js:141-153 | a seat succeeds iff it is allowed; a refused seat changes nothing |
| TablesController.SeatEffect | back-end/src/tables/tables.controller.js:141-153 | an allowed seat sets the table's reference to the reservation and the reservation's status to "seated", changes nothing else, and returns the updated table |
| TablesController.SeatMissingTable | back-end/src/tables/tables.controller.js:50-61 | an unknown table gives 404, whatever the body |
| TablesController.SeatMissingData | back-end/src/tables/tables.controller.js:6-14 | a missing body gives 400 "Table information required" |
| TablesController.SeatMissingReservationId | back-end/src/tables/tables.controller.js:16-25 | a falsy `reservation_id` gives 400 "reservation_id required" |
| TablesController.SeatUnknownReservation | back-end/src/tables/tables.controller.js:27-38 | a `reservation_id` selecting no row gives 404 naming it |
| TablesController.SeatAlreadySeated | back-end/src/tables/tables.controller.js:40-48 | a seated reservation is refused before capacity and occupancy are looked at |
| TablesController.SeatOverCapacity | back-end/src/tables/tables.controller.js:85-96 | a party larger than the capacity is refused before occupancy is looked at |
| TablesController.SeatOccupied | back-end/src/tables/tables.controller.js:98-107 | an occupied table is refused with "table_id is occupied" |
| TablesController.Free | back-end/src/tables/tables.controller.js:155-168 | the reply and the new database are those of the free specification |
| TablesController.FreeMissingTable | back-end/src/tables/tables.controller.js:50-61 | freeing an unknown table gives 404 and changes nothing |
| TablesController.FreeNotOccupied | back-end/src/tables/tables.controller.js:109-118 | freeing a free table gives 400 "table_id is not occupied" and changes nothing |
| TablesController.FreeEffect | back-end/src/tables/tables.controller.js:155-168 | freeing clears the table's reference and finishes its reservation, changes nothing else, and replies 200 with an empty join |
| TablesController.FreeDanglingReference | back-end/src/tables/tables.controller.js:155-166 | with a reference to no row, the table is written free and the reply is a 500, with the reservations unchanged |
| TablesController.SeatKeepsConsistent | back-end/src/tables/tables.controller.js:141-153 | seating keeps every reference pointing to a seated reservation, no reservation at two tables, and every seated reservation at a table |
| TablesController.FreeKeepsConsistent | back-end/src/tables/tables.controller.js:155-168 | freeing keeps that consistency and, on a consistent database, never ends in the partial-write 500 |
| TablesController.SeatThenFree | back-end/src/tables/tables.controller.js:141-168 | seating a reservation and then freeing the same table restores the tables and leaves the reservation "finished" |
| TablesController.StatusUpdateCanBreakConsistency | back-end/src/reservations/reservations.controller.js:239-246 | the status route can set a booked reservation to "seated" with no table referencing it |

## Left out

- The front end (forms, dashboard, edit page) is not part of this model; it only calls these routes.
- Listing and searching reservations (`list`, by date or by mobile number) is left out: it is a pure query over the reservations service, whose file is not part of this model.
- `Date.parse` and `new Date(...)` accept many formats; only `YYYY-MM-DD` dates of years 0-9999 are modelled. Any other string, and any non-string value, counts as unparseable (`NaN`).
- Calendar.ParseDate: V8 accepts a day of 29 to 31 in any month and rolls it over into the next month (so "2025-02-29" is 2025-03-01); the model refuses a day past the end of the month, so such a date gets the model's 400 where the source accepts it and takes the rolled-over weekday and instant.
- The local time zone is not modelled: "in the past" compares both instants on one wall-clock timeline. `Date.now()` is the parameter `now`.
- `Number(...)` is modelled on the empty string and on digit strings only; a piece with a sign, spaces or a fraction is `NaN`.
- Payload numbers are integers; fractional party sizes and capacities are not modelled.
- `data` is modelled as an object or as missing (`undefined` or `null`). A `data` that is any other non-object (`false`, `0`, `""`, `true`, a number, a string) is not modelled. Reading a field of such a value gives `undefined` instead of throwing. So where the model's missing `data` throws (the status and edit routes), the source answers 400 ("Unknown status undefined", "first_name is required"), and a truthy one passes `validData`.
- Body keys besides the route's own are not modelled.
- A `table_name` that is a truthy non-string with a `length` above 1 (an array, say) is treated as refused.
- Strings are sequences of code points. JavaScript's `length` counts UTF-16 code units, so a one-character name outside the Basic Multilingual Plane (an emoji) passes `validTableName` in the source and is refused by the model.
- `JsString` renders every non-primitive value as "[object Object]"; an array renders as its elements joined by commas in the source, so error messages quoting an array differ.
- TablesController.CreatedTableFields: a value that is neither an id nor missing/null is treated as refused by the database. A foreign-key check on an id is not modelled, since the schema is not part of this model.
- Values.KeyOf: a path parameter or `reservation_id` is read as an id only when it is a number of at least 1 or a plain run of decimal digits, and every other value selects no row (a 404 where the route looks it up). The `id` columns are PostgreSQL integers, so the source differs in these cases:
  - PostgreSQL's integer input also accepts surrounding spaces and a leading sign. " 5", "5 " and "+5" select row 5, where the model selects no row.
  - A number or digit string above 2147483647 (`GET /tables/3000000000`, `reservation_id: 99999999999`) is refused by PostgreSQL, and the client gets a 500. The model answers 404.
  - A boolean, an object or an array (`reservation_id: true` on the seat route, after it passes `hasReservationId`) cannot be cast to an integer, so the query is refused with a 500. The model answers 404.
  - Any other non-numeric string is refused by PostgreSQL with a 500. The model answers 404.
- Several checks call `next()` again after reporting an error. That second call reaches no later handler of the route, so the model stops at the first error.
- The table name order is code-point order; the database collation is not modelled.
- Each handler's queries run one after another, with no transaction and no concurrent requests.
- The error handler is modelled only as turning a reported error into its reply and a thrown one into a 500.
