# Verification of the dealership scheduler

A Dafny 4.11 model of the booking engine in `dealership/modules/appointment_scheduler` and of the stateful
protocols around it, with proofs. `dafny verify dfyconfig.toml` checks everything.

## What is modelled

**The booking engine.** `Tables` is a snapshot of the PostgreSQL tables with the SQL predicates that the code
evaluates on them. `Ledger` says what each request does: booking, lifecycle transitions, technician shifts and time
off, vehicles, deletion of bays and service types, catalogue administration. `LedgerInvariant` states one inductive
invariant and shows that every request keeps it; `LedgerTheorems` and `LedgerHistory` draw the promises from it, for
every reachable state and every run. `Database` is the imperative form: a class with one field per table whose methods
rewrite those fields in place, row by row where a statement covers several rows. They are proved equal to `Ledger`,
errors and rollback included. `RequestMeaning` says on rows and columns, without those steps, how each request is
answered and what it leaves; the methods' contracts carry it.
`Lifecycle` holds the domain entity and the row update that never calls it, and shows that they agree. `LocalClock`
and `ClockText` hold the wall-clock arithmetic.

**Around it.** `Idempotency`: concurrent requests over a store of expiring keys, one program counter per request.
`Calendar` and `CalendarTheorems`: the page built through pointers into a preallocated slice, and what it promises
when read from a reachable database. `Transactions` and `BookingRetries`: the retry loop, and booking under it.
`Migrations`: the migration runner over interrupted runs. `Credentials` and `AccountRaces`: password history and token
versions, over whole requests and over every interleaving of their loads and stores.

## Assumptions

- Each scheduler request is one atomic step, and the clock that requests see never goes back.
- A timezone is a fixed offset and a dealership's never changes.
- Instants are whole microseconds, as `timestamptz` stores them; Go durations are whole nanoseconds.
- Identifiers are natural numbers; 0 is the nil UUID. New keys are inputs of the request.
- Other clients of the database, as far as a retried booking meets them, keep its service type's durations and never
  remove a booking.
- Store calls of the idempotency middleware either take effect or report an error without effect.
- The body of a scheduler transaction does not panic between its writes. What happens otherwise is stated in
  `BookingRetries.PanicKeepsInvariantIff`.
- A password hash matches exactly the password it was made from.

## Where code and documentation differ

The model follows the code.

- `HasFutureAppointmentsOutsideTechnicianShift` reads `users.timezone`, a column that migration 0001 does not create,
  so as shipped the query fails. The model reads it as the technician's dealership's timezone.
- Besides the reservation constraint that the repository names, migration 0001 has exclusion constraints on
  `appointments`, CHECKs and a time-off trigger. All are modelled. That no two bookings overlap is proved from the
  reservation ledger; that the other constraints never refuse what it accepts is proved too.
- The row's `completed_at` is the request time, the entity's is the actual end (`Lifecycle.CompletedAtAgreesIff`).
- The service checks the transition table only when the request names an expected status (`Lifecycle.SafePairIff`).
- The idempotency comment speaks of every unsafe request; DELETE is not covered. The key holds the route pattern, so
  one id cannot be used for two targets of one route.
- The password comment asks for one character of each kind and the error text for fewer than 32; the code does
  neither (`Credentials.PatternIsLooser`).
- "Equal-width" migration names are nowhere required, and without them a migration can be skipped in silence
  (`Migrations.UnequalWidthSkips`).
- The transaction runner's deferred function decides by the error of the body, which is nil while the body
  panics. It then commits what the body has written so far (`Transactions.PartialIff`), and a booking without its
  reservations can become visible.
- A body can be applied twice when a COMMIT reply is lost behind the text that asks for a retry
  (`Transactions.ReappliesIff`); a PostgreSQL server sends that text only when it refuses. A booking is not booked twice
  even then, because its key is taken (`BookingRetries.RetriedBooking`): the caller gets an error and the booking stands.
- Account updates load, edit and store in separate statements, so the token version can fall and old passwords come
  back when they interleave (`Credentials.StaleStoreRevertsIff`, `AccountRaces.StoreFallsIff`).

## Model

| member | source | states |
|---|---|---|
| LedgerTheorems.NoDoubleBooking | dealership/modules/appointment_scheduler/adapters/db/appointment_repository.go:119-164 | In every reachable state two different active bookings that share a technician or a bay do not overlap (half-open); derived through the reservation ledger |
| LedgerTheorems.LedgerLinkage | dealership/modules/appointment_scheduler/adapters/db/appointment_repository.go:139-149 | Every booking has exactly one reservation of each kind, with its own resource and interval; it is unreleased exactly while the booking is active, and a released one carries the booking's final status |
| LedgerTheorems.GuardsAgree | dealership/modules/appointment_scheduler/adapters/db/migrations/0001_init_tables.up.sql:323-380 | "Busy" read from appointment status and "busy" read from `released_at` are the same predicate on every resource and interval |
| LedgerTheorems.AvailabilityAgreesWithBooking | dealership/modules/appointment_scheduler/adapters/db/dbmodels/service_bays.sql.go:172-199 | For a non-empty interval a bay is listed if and only if it is in use at the dealership, has every required capability, and inserting its reservation succeeds |
| LedgerTheorems.BookableBayIsListed | dealership/modules/appointment_scheduler/adapters/db/dbmodels/service_bays.sql.go:172-199 | The bay of a booking that can be made is on the availability list of its interval |
| LedgerTheorems.BookingSucceedsIff | dealership/modules/appointment_scheduler/adapters/db/appointment_repository.go:23-164 | A booking with unused keys succeeds if and only if, read off the tables: dealership and service type are active, the duration fits, the vehicle is the customer's and the customer the dealership's, opening hours hold the interval, technician and bay are active and have every required skill and capability, the calendar shows a shift of the technician around it, and no live time off and no unfinished booking overlaps |
| LedgerTheorems.BookingAnswered | dealership/modules/appointment_scheduler/adapters/db/appointment_repository.go:23-164 | Whatever its keys, a booking is answered with the first thing that it lacks on the tables; no exclusion constraint, trigger or CHECK refuses more |
| LedgerTheorems.EndIsPlannedIff | dealership/modules/appointment_scheduler/adapters/db/appointment_repository.go:44-52 | The end is start plus planned minutes if and only if the minutes are at most 153,722,867; beyond that the int64 product wraps |
| Integers.WrapsExactly | dealership/modules/appointment_scheduler/adapters/db/appointment_repository.go:44-52 | A wrapped int64 (or int32) value is in range and differs by a multiple of the modulus, which fixes the end of a booking whose product overflows |
| LedgerTheorems.TransitionSucceedsIff | dealership/modules/appointment_scheduler/adapters/db/appointment_repository.go:168-237 | While the invariant holds a handler's lifecycle request succeeds if and only if the matching domain entity allows it, and row and entity match again afterwards |
| LedgerTheorems.UpdateNeverRejected | dealership/modules/appointment_scheduler/adapters/db/migrations/0001_init_tables.up.sql:323-337 | Rewriting the status of an active booking never trips an exclusion constraint or the time-off trigger |
| LedgerTheorems.InExactlyOneShift | dealership/modules/appointment_scheduler/adapters/db/dbmodels/technician_shifts.sql.go:113-134 | Every active booking that ends after the clock lies in exactly one live shift of its technician, and inside the UTC interval the calendar shows for it |
| LedgerTheorems.UncoveredIff | dealership/modules/appointment_scheduler/adapters/db/dbmodels/technician_shifts.sql.go:113-134 | The coverage query, over all bookings and all other shifts, is true if and only if some unfinished booking in the shift in question does not fit the candidate |
| LedgerTheorems.DeleteShiftSucceedsIff | dealership/modules/appointment_scheduler/app/service.go:1731-1755 | A live shift can be deleted if and only if no active unfinished booking lies in it (the zero candidate matches no weekday) |
| LedgerTheorems.UpdateShiftSucceedsIff | dealership/modules/appointment_scheduler/app/service.go:1698-1729 | A live shift can be moved if and only if the new window is valid, clashes with no other shift and holds every unfinished booking the old one holds |
| LedgerTheorems.CreateTimeOffSucceedsIff | dealership/modules/appointment_scheduler/adapters/db/technician_repository.go:35-51 | Time off can be created if and only if it is non-empty and overlaps neither an unreleased reservation of the technician nor other live time off |
| LedgerTheorems.TimeOffNeverClashes | dealership/modules/appointment_scheduler/adapters/db/technician_repository.go:35-107 | Live time off never overlaps an active booking of the same technician |
| LedgerTheorems.OnOneCalendar | dealership/modules/appointment_scheduler/adapters/db/dbmodels/technician_schedules.sql.go:108-126 | Every booking appears on the calendar of exactly one local date |
| LedgerTheorems.NothingDeletedIsBooked | dealership/modules/appointment_scheduler/adapters/db/dealership_repository.go:671-704 | No booking ever refers to a soft-deleted bay or service type, or to another dealership's |
| LedgerTheorems.BookingsAreEntitled | dealership/modules/appointment_scheduler/adapters/db/dbmodels/appointments.sql.go:222-233 | In all later states a booking's vehicle is its customer's and the customer's owner is its dealership |
| LedgerTheorems.RunKeeps | dealership/modules/appointment_scheduler/adapters/db/appointment_repository.go:23-237 | The inductive invariant holds after every legal run of requests with a clock that never goes back |
| LedgerTheorems.ReachableNext | dealership/modules/appointment_scheduler/adapters/db/appointment_repository.go:23-237 | The reachable states are the empty tables and whatever a handler's request makes of a reachable state |
| LedgerInvariant.StepKeeps | dealership/modules/appointment_scheduler/adapters/db/appointment_repository.go:23-237 | Every request keeps the whole invariant, whether it succeeds or fails |
| LedgerInvariant.ScheduleKeeps | dealership/modules/appointment_scheduler/adapters/db/appointment_repository.go:119-154 | Booking keeps the ledger linked and disjoint, coverage, time off, references and the audit log |
| LedgerInvariant.ChangeKeeps | dealership/modules/appointment_scheduler/adapters/db/appointment_repository.go:188-237 | A transition keeps all of it while it rewrites the row and releases capacity |
| LedgerInvariant.GuardKeepsCover | dealership/modules/appointment_scheduler/app/service.go:1698-1755 | A shift change that passes the coverage query leaves every unfinished booking inside a live shift |
| LedgerInvariant.DeleteBayKeeps | dealership/modules/appointment_scheduler/adapters/db/dealership_repository.go:1064-1097 | Deleting a bay keeps every booking's bay undeleted |
| LedgerInvariant.DeleteServiceTypeKeeps | dealership/modules/appointment_scheduler/adapters/db/dealership_repository.go:671-704 | Deleting a service type keeps every booking's service type undeleted |
| LedgerInvariant.CreateVehicleKeeps | dealership/modules/appointment_scheduler/adapters/db/dealership_repository.go:412-447 | Creating a vehicle keeps every vehicle's customer owned and every booking entitled |
| LedgerHistory.RunEvolves | dealership/modules/appointment_scheduler/adapters/db/appointment_repository.go:168-237 | Along every run bookings keep all columns but the lifecycle ones, ranks only fall, reservations are released at most once, the audit log only grows, owners stay |
| LedgerHistory.OwnershipIsPermanent | dealership/modules/appointment_scheduler/adapters/db/dbmodels/vehicles.sql.go:15-19 | A customer, once owned by a dealership, belongs to it in every later state |
| LedgerHistory.EndedBookingsAreFinal | dealership/modules/appointment_scheduler/adapters/db/appointment_repository.go:188-220 | A completed or cancelled booking never changes again in any column |
| LedgerHistory.AuditReplaysStatus | dealership/modules/appointment_scheduler/adapters/db/appointment_repository.go:150-235 | A booking's log starts with "created", replays event by event to its current status and has at most four events |
| LedgerHistory.PrefixReplays | dealership/modules/appointment_scheduler/adapters/db/dbmodels/appointment_audit_events.sql.go:15-30 | Each event's before-status is what the log up to there replays to |
| LedgerHistory.EndingFreesOwnCapacity | dealership/modules/appointment_scheduler/adapters/db/dbmodels/appointment_resource_reservations.sql.go:97-112 | After completing or cancelling, a resource is busy if and only if another booking takes it |
| LedgerHistory.CancelUndoesBooking | dealership/modules/appointment_scheduler/adapters/db/appointment_repository.go:119-237 | Booking and then ending that booking leaves every resource exactly as busy as before, on every interval |
| Lifecycle.RowRefinesEntity | dealership/modules/appointment_scheduler/domain/appointment.go:54-100 | With a handler's from/to pair the repository path succeeds if and only if the domain method does, and status, interval, times and reason agree |
| Lifecycle.RunRefinesEntity | dealership/modules/appointment_scheduler/domain/appointment.go:54-100 | The same along every run of handler requests, failed ones included |
| Lifecycle.BookedRowRefinesEntity | dealership/modules/appointment_scheduler/domain/appointment.go:42-52 | A new entity is accepted if and only if it has an id and a non-empty interval, and then agrees with the booked row after every run |
| Lifecycle.CompletedAtAgreesIff | dealership/modules/appointment_scheduler/adapters/db/appointment_repository.go:198-220 | `completedAt` agrees if and only if the actual end is the request time: the row keeps the request time, the entity the actual end |
| Lifecycle.SafePairIff | dealership/modules/appointment_scheduler/app/appointment.go:117-163 | A from/to pair is safe for every row if and only if `from` is given or `to` is cancelled (or requested, which is always refused); a finished appointment could otherwise be reopened |
| Lifecycle.HandlerLowersRank | dealership/modules/appointment_scheduler/app/appointment.go:158-163 | Every successful handler transition is in the transition table and lowers the rank |
| LocalClock.BookingTestIsCalendarShift | dealership/modules/appointment_scheduler/adapters/db/dbmodels/appointments.sql.go:507-517 | The SQL test (one local date, weekday, both times of day) holds if and only if the interval lies in a UTC shift interval that the calendar builds, and then only for the local date of the start |
| LocalClock.LocalTimeOnDateExact | dealership/modules/appointment_scheduler/app/technician_schedule_query.go:258-264 | Splitting a clock into hours, minutes, seconds and nanoseconds with truncating division loses nothing, for either sign |
| LocalClock.GoDivision | dealership/modules/appointment_scheduler/app/technician_schedule_query.go:258-264 | Go's division: quotient and remainder give the dividend back, the remainder is smaller than the divisor and never has the opposite sign of the dividend |
| LocalClock.StoredClockExact | dealership/modules/appointment_scheduler/adapters/db/dealership_repository.go:1171-1173 | A duration survives storage if and only if it is a whole number of microseconds |
| LocalClock.WeekdaysAgree | dealership/modules/appointment_scheduler/app/technician_schedule_query.go:238-241 | Go's Sunday-0 weekday mapped to 7 is ISODOW |
| LocalClock.WeekdaysFollow | dealership/modules/appointment_scheduler/adapters/db/dbmodels/appointments.sql.go:507-517 | 1970-01-01 was a Thursday (4) and each date is followed by the next weekday |
| LocalClock.FetchedWhenOnDate | dealership/modules/appointment_scheduler/adapters/db/dbmodels/technician_schedules.sql.go:108-126 | The calendar query of a date fetches a non-empty interval if and only if some instant of it falls on that local date |
| LocalClock.SharedBookingOverlaps | dealership/modules/appointment_scheduler/adapters/db/migrations/0001_init_tables.up.sql:244-252 | Two windows that both hold a non-empty booking overlap |
| ClockText.ParsesExactly | dealership/modules/appointment_scheduler/api/http/handler.go:602-608 | Parsing accepts exactly the two-digit texts 00:00 to 23:59, with their meaning in minutes |
| ClockText.LengthDecides | dealership/modules/appointment_scheduler/api/http/handler.go:1235-1241 | The only other texts `time.Parse` would let in are the four-character ones with a one-digit hour |
| ClockText.ParseThenFormat | dealership/modules/appointment_scheduler/api/http/handler.go:602-616 | Formatting what was parsed gives the text back |
| ClockText.FormatThenParse | dealership/modules/appointment_scheduler/api/http/handler.go:602-616 | Parsing what was formatted gives the duration back if and only if it is a whole minute in [0, 24h); in general it keeps the whole minutes of the day |
| ClockText.StoredAndShown | dealership/modules/appointment_scheduler/app/technician_schedule_query.go:258-264 | A parsed time survives microsecond storage, is shown as the same text, and lands on the right UTC instant of a date |
| Idempotency.OneHandlerPerKey | dealership/modules/common/http/idempotency.go:21-58 | Over all interleavings whose requests end within the TTL, one key never has two handlers at work |
| Idempotency.OneSuccessPerWindow | dealership/modules/common/redis/idempotency.go:12-40 | Two successes of one key were reserved at least a whole TTL apart |
| Idempotency.RetryAdmittedIff | dealership/modules/common/http/idempotency.go:36-46 | A request reaches its handler if and only if no request with the key is at work, has succeeded or failed to give the key back within the TTL |
| Idempotency.ReleaseFreesTheKey | dealership/modules/common/http/idempotency.go:48-56 | After a failed run has released its key the next request with it gets in |
| Idempotency.SecondHandlerIff | dealership/modules/common/http/middleware.go:24-26 | If time is not bounded, a second handler starts beside a running one if and only if the first has outlived its TTL |
| Idempotency.Serve | dealership/modules/common/http/idempotency.go:21-67 | One request: which methods bypass, when the id is refused, when it conflicts, that the client otherwise gets the handler's own answer (or the release error of a failed write), and that the key stays taken for 24 hours exactly after a success, a panic or a lost release |
| Idempotency.AloneDoesTheSame | dealership/modules/common/http/idempotency.go:21-67 | The machine's steps for one request alone leave the keys exactly as the middleware does, and the request ends |
| Idempotency.IdempotencyStore.Reserve | dealership/modules/common/redis/idempotency.go:34-36 | SETNX with expiry succeeds if and only if the key is not present; afterwards it is |
| Idempotency.IdempotencyStore.Release | dealership/modules/common/redis/idempotency.go:38-40 | DEL removes the key, whoever set it |
| Idempotency.KeysAreDistinct | dealership/modules/common/http/idempotency.go:61-67 | For routes in which ":" follows "/" and which do not end in "/", equal keys mean equal method, route and id |
| Calendar.Build | dealership/modules/appointment_scheduler/app/technician_schedule_query.go:168-186 | All rows are appended in order and every stored pointer still leads into the result's own block, to the last row of its technician |
| Calendar.Append | dealership/modules/appointment_scheduler/app/technician_schedule_query.go:178-184 | Go's append writes in place while there is room and moves to a new block otherwise |
| Calendar.AppendShifts | dealership/modules/appointment_scheduler/app/technician_schedule_query.go:238-256 | Each pointed-to row gains exactly its technician's shift intervals; rows of unlisted technicians are dropped |
| Calendar.AppendAppointments | dealership/modules/appointment_scheduler/app/technician_schedule_query.go:266-285 | Each pointed-to row gains exactly its technician's appointments, in fetch order |
| Calendar.AppendTimeOff | dealership/modules/appointment_scheduler/app/technician_schedule_query.go:287-300 | Each pointed-to row gains exactly its technician's time off, in fetch order |
| Calendar.SortRows | dealership/modules/appointment_scheduler/app/technician_schedule_query.go:203-212 | Every row's slots are reordered by (start, end) and are the same multiset; nothing else changes |
| Calendar.ParseIncludes | dealership/modules/appointment_scheduler/app/technician_schedule_query.go:218-236 | Exactly the known include values are accepted; none given means all |
| Calendar.List | dealership/modules/appointment_scheduler/app/technician_schedule_query.go:118-214 | The page or the exact error; each row shows its own technician's included shifts and, sorted, its appointments and time off |
| CalendarTheorems.PageIsLossless | dealership/modules/appointment_scheduler/app/technician_schedule_query.go:168-213 | All rows together show each included slot of a listed technician exactly as often as it was fetched, and nothing else |
| CalendarTheorems.SlotsFollow | dealership/modules/appointment_scheduler/app/technician_schedule_query.go:203-212 | Read from a reachable database, the slots of a row follow one another without overlap, whatever their kinds |
| CalendarTheorems.ShowsExactly | dealership/modules/appointment_scheduler/adapters/db/dbmodels/technician_schedules.sql.go:108-126 | A row shows a booking, with its interval, status, bay and reference code, if and only if the booking is active, the technician's and on that day |
| CalendarTheorems.ShowsFetched | dealership/modules/appointment_scheduler/app/technician_schedule_query.go:266-285 | The appointments in a technician's last row are the fetched rows of that technician, with all eight columns in their places, and no others |
| CalendarTheorems.ShownInsideShift | dealership/modules/appointment_scheduler/app/technician_schedule_query.go:238-264 | Every unfinished booking a row shows lies inside a shift the row shows |
| Transactions.Connection.Update | dealership/modules/common/db.go:46-78 | The retry loop is the recursive specification: up to ten attempts, each further one if and only if the one before asks for it and is not given up; tables, memory and error are those of the last |
| Transactions.RetriedIff | dealership/modules/common/db.go:60-69 | An attempt is retried if and only if the marker is in the begin, body, rollback or commit error; a failed rollback can make a permanent error retryable |
| BookingRetries.RerunPlansTheSameIff | dealership/modules/appointment_scheduler/adapters/db/appointment_repository.go:44-52 | A second run, on the record the first one left, plans the same if and only if a duration was given, the first run did not get as far as filling it in, or the longest duration has not changed |
| BookingRetries.BodyMeans | dealership/modules/appointment_scheduler/adapters/db/appointment_repository.go:23-52 | Fault by fault, what the body does with its tables and its record: a duration not given is filled in once the service type has been read, and a rollback does not undo that |
| Migrations.MigrationDatabase.MigrateUp | dealership/modules/common/migrations.go:22-79 | The loop over sorted files is the recursive specification; a clean table stays clean, success means that no file found is above the stored version, and a failure names a dirty version, a file without a version or one that could not be applied |
| Migrations.VersionIs | dealership/modules/common/migrations.go:121-131 | A file has version v if and only if its name is an optional sign, digits and an underscore followed by anything, the digits read v, and v fits an int64 |
| Migrations.MigrationDatabase.ApplyMigration | dealership/modules/common/migrations.go:97-119 | One transaction: on success one clean row and the script run, on failure nothing |
| Migrations.MigrationDatabase.MigrationVersion | dealership/modules/common/migrations.go:81-95 | 0 for no row, the version of a clean row, an error for a dirty one |
| Migrations.RunAscends | dealership/modules/common/migrations.go:61-77 | Whatever the names, a run applies only versions above the stored one, each higher than the one before |
| Migrations.AppliesAllAboveIff | dealership/modules/common/migrations.go:61-77 | A run applies all files above the stored version if and only if they come in ascending order |
| Migrations.EqualWidthRun | dealership/modules/common/migrations.go:34-77 | For distinct versions written with equally many digits it applies exactly those above the stored one, once each, ascending |
| Migrations.UnequalWidthSkips | dealership/modules/common/migrations.go:34 | With "10_a" and "9_b" the run reports success and never applies 9 |
| Migrations.StopAndGo | dealership/modules/common/migrations.go:57-119 | After a run that fails anywhere there is a clean state from which a rerun ends like an uninterrupted run |
| Migrations.InterruptionsDoNotShow | dealership/modules/common/migrations.go:57-131 | The same after any number of interrupted runs |
| Migrations.SortFilesOrdered | dealership/modules/common/migrations.go:34 | The sort orders the files bytewise and keeps them all |
| Credentials.NoEarlyReuse | dealership/modules/auth/domain/user.go:96-109 | Over any run on a new account any four passwords in a row differ pairwise |
| Credentials.ChangeAcceptedIff | dealership/modules/auth/app/service.go:245-268 | After any run a change is answered with the first of: pattern, wrong current password, one of the last three passwords, version beyond int32; otherwise it succeeds |
| Credentials.SignInAcceptedIff | dealership/modules/auth/app/service.go:162-173 | After any run signing in succeeds if and only if the password is the last one set and the last status change left the account active; the token carries 1 plus the revocations |
| Credentials.RefreshAcceptedIff | dealership/modules/auth/app/service.go:177-187 | After any run a refresh token is accepted if and only if it carries 1 plus the revocations so far and the account is active |
| Credentials.VersionCountsRevocations | dealership/modules/auth/domain/user.go:104-113 | The token version rises by the number of successful revocations and nothing else, so it never falls, even at the int32 bound |
| Credentials.SignOutRefusedIff | dealership/modules/auth/adapters/db/migrations/0001_init_tables.up.sql:25 | Signing out everywhere succeeds below the int32 maximum and is refused as invalid credentials exactly at it |
| Credentials.TokenAcceptedIff | dealership/modules/auth/app/service.go:177-187 | A refresh token is accepted later if and only if the account is active and nothing was revoked in between |
| Credentials.RevokedForever | dealership/modules/auth/app/service.go:177-201 | A token older than a revocation is refused after every continuation |
| Credentials.RenameUndoesSignOut | dealership/modules/auth/app/service.go:271-283 | A rename that loaded before a sign-out and stores after it makes the old refresh token good again |
| Credentials.ValidatePasswordPattern | dealership/modules/auth/app/service.go:327-337 | The loop accepts exactly 8 to 32 allowed characters |
| Credentials.AuthService.ChangePassword | dealership/modules/auth/app/service.go:245-268 | Each refusal in order, and otherwise the step of the specification on that account alone |
| Credentials.AuthService.SignOutAllDevices | dealership/modules/auth/app/service.go:191-201 | The step of the specification on that account alone |
| Database.SchedulerDatabase.ScheduleAppointment | dealership/modules/appointment_scheduler/adapters/db/appointment_repository.go:23-156 | The transaction, with its resource loop and rollback: it succeeds if and only if what lists, tables and calendars show allows it, else answers the first thing that is missing and changes nothing; it leaves one appointment, one reservation of each resource and one event, all columns given, and keeps the invariant |
| Database.SchedulerDatabase.TransitionAppointment | dealership/modules/appointment_scheduler/adapters/db/appointment_repository.go:168-237 | With a handler's request it succeeds if and only if the domain entity the row stands for allows it, and the row then stands for the changed entity; a booking of another dealership is refused, no other booking changes, every column, the event and the released rows are given, an ended booking alone gives back what it held, and the invariant is kept |
| Database.SchedulerDatabase.ReleaseReservations | dealership/modules/appointment_scheduler/adapters/db/dbmodels/appointment_resource_reservations.sql.go:97-102 | Going through the rows one by one, exactly the booking's unreleased reservations get the time and the final status |
| Database.SchedulerDatabase.HasFutureAppointmentsOutside | dealership/modules/appointment_scheduler/adapters/db/dbmodels/technician_shifts.sql.go:113-134 | The nested scan of bookings and shifts finds a booking if and only if one is covered neither by another live shift nor by the candidate |
| Database.SchedulerDatabase.HasActiveOverlap | dealership/modules/appointment_scheduler/adapters/db/dbmodels/technicians.sql.go:267-275 | The scan finds a row if and only if an active booking of the resource overlaps the interval |
| Database.SchedulerDatabase.CreateTechnicianShift | dealership/modules/appointment_scheduler/app/service.go:1661-1681 | Keeps the invariant, says for every request how it is answered, succeeds if and only if the technician is active, the key unused and the table with the new shift sound; the technician then works in the window as well and everybody else as before |
| Database.SchedulerDatabase.UpdateTechnicianShift | dealership/modules/appointment_scheduler/app/service.go:1698-1729 | Keeps the invariant; answered by existence, clock times, whether every unfinished booking in the old window fits the new one, and clashes; the technician then works in the new window, no longer in the old one, and everybody else as before |
| Database.SchedulerDatabase.DeleteTechnicianShift | dealership/modules/appointment_scheduler/app/service.go:1731-1755 | Keeps the invariant; succeeds if and only if the shift is live and no unfinished booking lies in it; nobody works in it then and all other shifts count as before |
| Database.SchedulerDatabase.CreateTechnicianTimeOff | dealership/modules/appointment_scheduler/adapters/db/technician_repository.go:35-51 | Keeps the invariant; answered by the reservation ledger and other time off, although the check reads appointment status; the technician is then away in the interval as well and everybody else as before |
| Database.SchedulerDatabase.UpdateTechnicianTimeOff | dealership/modules/appointment_scheduler/adapters/db/technician_repository.go:85-107 | The same for moved time off, its own old interval aside, from which the technician is then no longer away |
| Database.SchedulerDatabase.DeleteTechnicianTimeOff | dealership/modules/appointment_scheduler/adapters/db/technician_repository.go:109-118 | Keeps the invariant; succeeds if and only if the item is live time off of a technician of the dealership; afterwards it keeps nobody from anything and all other time off counts as before |
| Database.SchedulerDatabase.InsertVehicle | dealership/modules/appointment_scheduler/adapters/db/dealership_repository.go:412-447 | Claim, ownership check and insert, all or nothing: accepted if and only if the customer exists and belongs to nobody else and key and VIN are unused; the vehicle is then the customer's and the customer the dealership's |
| Database.SchedulerDatabase.DeleteServiceBay | dealership/modules/appointment_scheduler/adapters/db/dealership_repository.go:1064-1097 | Keeps the invariant; succeeds if and only if the bay is the dealership's and no booking refers to it; every availability list loses exactly this bay |
| Database.SchedulerDatabase.RemoveServiceType | dealership/modules/appointment_scheduler/adapters/db/dealership_repository.go:671-704 | Keeps the invariant; succeeds if and only if the type is the dealership's and no booking refers to it; no booking of the type succeeds any more, and other types are offered as before |
| Database.SchedulerDatabase.Serve | dealership/modules/appointment_scheduler/adapters/db/appointment_repository.go:23-237 | Any request, served in place, is one step of the specification, keeps the invariant, keeps live time off disjoint, and is answered and carried out as `RequestMeaning` spells out on rows and columns; a refused one changes nothing but the time |
| RequestMeaning.EveryRequestMeans | dealership/modules/appointment_scheduler/adapters/db/appointment_repository.go:23-237 | While the invariant holds each of the fifteen requests gets the answer, and leaves the rows and columns, that are spelled out without the steps that compute them |
| LedgerInvariant.InsertAcceptedIff | dealership/modules/appointment_scheduler/adapters/db/migrations/0001_init_tables.up.sql:372-379 | The exclusion constraint, asked of one row, accepts exactly the rows with which all unreleased reservations of each resource stay disjoint |
| LedgerInvariant.ShiftAcceptedIff | dealership/modules/appointment_scheduler/adapters/db/migrations/0001_init_tables.up.sql:242-249 | The checks on a written shift accept exactly the tables in which live shifts of one technician stay disjoint |
| LedgerTheorems.UpdateTimeOffSucceedsIff | dealership/modules/appointment_scheduler/adapters/db/technician_repository.go:85-107 | Live time off can be moved if and only if the new interval is non-empty and overlaps neither an unreleased reservation nor other live time off |
| LedgerTheorems.RunKeepsTimeOff | dealership/modules/appointment_scheduler/adapters/db/migrations/0001_init_tables.up.sql:253-267 | Along every run live time off of one technician is non-empty and pairwise disjoint |
| CalendarTheorems.ShowsLiveShifts | dealership/modules/appointment_scheduler/adapters/db/dbmodels/technician_schedules.sql.go:184-200 | The intervals a row shows are the live shifts of its technician on the page's weekday, all of them and no others |
| Idempotency.ThirdHandlerIff | dealership/modules/common/redis/idempotency.go:38-40 | DEL is unconditional: after an arbitrary wait, a takeover by y and the slow request's failure, a third request runs, and runs beside y if and only if the slow request has outlived its key |
| Transactions.AllOrNothing | dealership/modules/common/db.go:46-106 | If commits are answered and no partial work was committed: after at most ten attempts either the tables are as the other clients left them, or success and exactly one body run on top |
| Transactions.ReapplyNeeds | dealership/modules/common/db.go:58-75 | Whatever the body, two of its runs reach the tables only if a reply is lost behind the retry text before another commit that the run can reach |
| Transactions.ReappliesIff | dealership/modules/common/db.go:58-75 | Under given errors of the attempts some body is applied twice if and only if there is such a loss; one in the last attempt, before a give-up or without the text does no harm |
| BookingRetries.PanicKeepsInvariantIff | dealership/modules/appointment_scheduler/adapters/db/appointment_repository.go:119-154 | The tables at a point of the booking body keep the invariant if and only if nothing or everything has been written |
| Credentials.StaleStoreFallsIff | dealership/modules/auth/app/service.go:191-201 | If other requests run between a load and its store, the version falls if and only if the request passes its checks on the loaded row and more revocations happened in between than it makes |
| Credentials.StoredColumns | dealership/modules/auth/adapters/db/repository.go:173-206 | Column by column: a password change leaves the name and status stored meanwhile, every other update puts back all it has loaded besides its own column |
| Credentials.StaleStoreRevertsIff | dealership/modules/auth/adapters/db/repository.go:173-182 | A rename, status change or sign-out stored late puts back the loaded passwords: the row disagrees with the passwords really set if and only if the last three changed in between, and the newest one stops working if and only if it differs from the loaded one |
| Credentials.EarlyReuseIff | dealership/modules/auth/domain/user.go:96-109 | After such a store a change to one of the last three passwords is accepted if and only if it was set in between, the loaded row did not remember it, and the usual checks pass |
| Credentials.StaleChangeIff | dealership/modules/auth/app/service.go:245-268 | Of two interleaved password changes the later store reuses one of the last three if and only if the row it replaces would have refused it, and forgets the other change if and only if the last two passwords changed |
| Idempotency.RoutesCollideIff | dealership/modules/common/http/idempotency.go:28-63 | Two different routes share a key for some headers that pass the check (trimmed, 1 to 255 characters) if and only if one route, followed by ":", begins the other and the rest is at most 253 characters long and does not begin with a space |
| Text.TrimCutsSpaces | dealership/modules/common/http/idempotency.go:28-34 | Trimming leaves a contiguous part of the header and cuts nothing but spaces |
| Transactions.PartialIff | dealership/modules/common/db.go:94-105 | Partial work reaches the tables if and only if some attempt is made (every earlier one asks for another and is not given up) whose body panics and whose COMMIT applies: while the body panics the deferred function still sees a nil error |
| BookingRetries.RetriedBooking | dealership/modules/appointment_scheduler/adapters/db/appointment_repository.go:23-156 | Whatever the attempts meet (panics, statements failing with any text, lost COMMIT replies), a retried booking is booked at most once: the tables hold nothing of it, one run of the original request, or a committed panic's writes; a second commit can only be an empty one |
| BookingRetries.SuccessIsItsOwn | dealership/modules/common/db.go:46-78 | Success is only reported for the last attempt's own booking, never on top of one left behind a lost reply: then the run ends in an error while the booking stands |
| BookingRetries.RetriedBookingKeepsInvIff | dealership/modules/common/db.go:94-105 | The invariant survives a retried booking if and only if no attempt panics between first and last write with a COMMIT that applies while all before it ask for another; the condition reads the attempts, the faults and what the other clients make of the tables |
| CalendarTheorems.ShowsLiveTimeOff | dealership/modules/appointment_scheduler/adapters/db/dbmodels/technician_schedules.sql.go:231-244 | A row shows a time-off slot if and only if it is live time off of its technician on that day |
| Credentials.AuthService.Serve | dealership/modules/auth/app/service.go:162-283 | Any request for one's own account, served in place, is one step on that account alone, with the exact refusal for an unknown account; stored rows stay within the column bounds and the version never falls or jumps |
| AccountRaces.NothingInvented | dealership/modules/auth/app/service.go:191-283 | However loads and stores interleave, rows stay within the column bounds, only remember passwords that were set, and the version never runs ahead of the revocations made |
| AccountRaces.StoreFallsIff | dealership/modules/auth/adapters/db/repository.go:173-206 | In every state an interleaving can reach, a store makes the version fall if and only if its checks pass on the loaded row and that row's version, with the own revocation, is behind |
| AccountRaces.StoreRecordsIff | dealership/modules/auth/adapters/db/repository.go:173-206 | After a store the row remembers the passwords really set if and only if the columns it now holds came from a row that did |
| AccountRaces.StoreRepeatsIff | dealership/modules/auth/domain/user.go:96-109 | A store repeats one of the last three passwords if and only if it is a change that passes its checks on the loaded row to a password really set so recently |
| AccountRaces.SerialRun | dealership/modules/auth/app/service.go:191-283 | An interleaving in which every store finds the row as it was loaded has the row, history and revocations of the serial run in the order of the stores |
| AccountRaces.EverySerialRun | dealership/modules/auth/app/service.go:191-283 | Conversely every sequence of requests is such an interleaving, stored in that order and leaving nothing pending |
| AccountRaces.FreshStoresAreSafe | dealership/modules/auth/domain/user.go:96-113 | So in such an interleaving any four passwords in a row differ and the version counts the revocations |

## Left out

- Isolation detail of PostgreSQL: booking takes no advisory lock and the shift check and shift write are separate
  calls; all scheduler results are for atomic steps.
- Authorization lookups, roles and the acting user's foreign keys: guards in front of every request.
- HTTP handlers, error responses, OpenAPI code, TLS, configuration, logging, tracing, Redis and pgx clients.
- Deleting, rewriting or directly creating appointments (`DeleteAppointments`, `UpdateAppointments`,
  `CreateAppointments`): no code calls them. For the same reason `appointments.deleted_at` is not modelled.
- Catalogue administration in detail: `Ledger.Extends` lets it add rows and edit columns freely, including
  deactivating a technician, and only fixes dealerships, timezones and the two guarded deletions.
- That technicians stay active, and skills, capabilities and opening hours keep matching after booking: the code does
  not keep it.
- The record returned by the booking service, which lacks the computed end.
- Daylight-saving changes, calendar-date parsing, e-mail addresses, bcrypt, JWT and HMAC: library behaviour.
- Character classes beyond ASCII in passwords, headers and names.
- ORDER BY of lists, JSON encoding of audit rows, columns that no rule reads (names, phone numbers, reasons of time off).
- Backoff intervals, elapsed-time limits and context ends of the retry loop: one optional "give up" per attempt.
- A Reserve call whose effect and reply disagree (a SETNX applied but reported as failed).
- Calendar.SortSlots: `sort.Slice` is represented by an insertion sort; only order and multiset are promised, so
  the order of equal keys is open as in Go.
- Migrations.MigrationDatabase.MigrateUp: advisory lock, schema creation and the scripts' own effects; a script is
  its file name in a list of committed scripts.
- Customer, dealership, user and catalogue CRUD with field validation; seed data; the first-account check.
