# Car rental: admission, gate, tracking and catalogue rules

This project models the request rules of a small car-rental web service, as
pure decisions over records, and proves what the handlers promise.

- **Bookings** (`bookings.dfy`).
  - `POST /api/bookings` is `Admission`, in the handler's order: session, request schema, car lookup, car availability, the date pre-filter on the bookings table, the instant-level three-way overlap test, pricing, and the pending record.
  - `BookingTable` is the same handler as an imperative method on a table of rows that it appends to. Its pricing step `Price` updates the hour, day and price counters the way the handler does.
  - The invariant: when the conflict query answers, sequential admission keeps the windows of the bookings that hold a car pairwise disjoint.
  - `GET /api/bookings` is `ListBookings`: who sees which rows, newest first.
- **Route gate** (`middleware.dfy`). The redirect decision of the middleware, the session-cookie test over the rendered cookie header, and the paths the matcher sends through the gate.
- **Tracking** (`tracking.dfy`). Which GPS samples `GET /api/tracking` returns to whom, including the narrowing of a renter's car query to the booking they hold. Also the schema, car and booking checks of `POST /api/tracking`, and the consistency of the append-only log they keep.
- **Cars** (`cars.dfy`). The catalogue filter of `GET /api/cars` as a conjunction of per-field tests, plus the admin gate and the car schema of `POST /api/cars`.
- **Support modules.**
  - `text.dfy`: digit strings, text order, substring search, ASCII case folding.
  - `calendar.dfy`: `YYYY-MM-DD`/`HH:MM` values mapped to minutes on the proleptic Gregorian calendar, with the proof that text order of dates is chronological.
  - `rows.dfy`: the query-builder steps `.eq`, `.single()`, `.limit(1).single()`, `.order(…, descending)` and `.limit(n)`.
  - `auth.dfy`: the caller and their role.
  - `records.dfy`: the row shapes.
  - `wrappers.dfy`: `Option`.

**Inputs instead of I/O.** The caller, the tables and everything the database assigns are parameters:

- the session (`Option<Caller>`);
- the `cars`, `bookings` and `tracking` rows;
- a new row's `id` and timestamp;
- whether the conflict query errored;
- the calendar year when the car schema was built.

**Timestamps.** `created_at` and `timestamp` are integers that order like time.

**Behaviour the model keeps from the code.**

- A failed conflict query is only logged, so the request is admitted as if there were no candidates. `FailedConflictQueryAdmitsOverlap` shows the consequence.
- A date or time that matches the request schema but is not a real calendar value (`2024-02-32`, `2024-13-01`, `25:99`) passes the schema. Its `Date` is then invalid, and every comparison it takes part in is false, while the other comparisons of the overlap test still count. So a request from `99:00` to `12:00` beside a 10:00–14:00 booking is still refused as already booked (`InvalidStartStillClashes`).
- The pre-filter compares dates only, so an invalid time does not affect it. No database schema is part of this model. The model takes the date and time columns to be typed, so an unreal requested date makes the conflict query fail (no candidates), and a request with an unreal date or time that is not refused earlier is refused by the insert with 400. This is `InsertRejected`.
- A signed-in renter who names neither a booking nor a car reads every sample (see Findings).

## Model

| member | source | states |
|---|---|---|
| Text.LexIsNumeric | project/app/api/bookings/route.ts:124 | over digit strings of one length, text order is numeric order and equal text is an equal value |
| Calendar.Instant | project/app/api/bookings/route.ts:116-117 | a `date`T`time` instant exists exactly when both parts are real calendar values, and it lies within its own day |
| Calendar.OrdinalIncreasing | project/app/api/bookings/route.ts:116-117 | a later (year, month, day) has a larger day number, and conversely |
| Calendar.NextDay | project/app/api/bookings/route.ts:160 | consecutive calendar dates have consecutive day numbers, across month ends, year ends and 29 February, so whole days elapsed count calendar days |
| Calendar.DateTextOrder | project/app/api/bookings/route.ts:124 | two `YYYY-MM-DD` texts compare as text exactly as their (year, month, day) fields compare |
| Calendar.DateTextIsChronological | project/app/api/bookings/route.ts:124 | for real dates, text order (what the pre-filter compares) is day-number order |
| Calendar.EarlierInstantEarlierDate | project/app/api/bookings/route.ts:124 | an instant on date a before an instant on date b forces a ≤ b as text |
| Rows.Filter | project/app/api/bookings/route.ts:53-65 | an `.eq` step keeps exactly the rows that satisfy it, each as often as it is stored |
| Rows.FilterAppend | project/app/api/bookings/route.ts:119-124 | filtering a table with one more row is filtering the table and then that row |
| Rows.Single | project/app/api/bookings/route.ts:95-99 | `.single()` yields a row exactly when one row matched, and that row comes from the matches |
| Rows.UniqueMatch | project/app/api/bookings/route.ts:95-99 | on a key no two rows share, `.eq(key, k).single()` yields a row exactly when a row with key `k` is stored |
| Rows.AtMostOneMatch | project/app/api/tracking/route.ts:54-58 | on a key no two rows share, an `.eq` on it keeps at most one row |
| Rows.First | project/app/api/tracking/route.ts:74-75 | `.limit(1).single()` yields a row exactly when some row matched |
| Rows.Take | project/app/api/tracking/route.ts:40 | `.limit(n)` keeps min(n, length) rows, a prefix of the ordered rows |
| Rows.NewestFirst | project/app/api/bookings/route.ts:49 | ordering by a key descending returns a permutation of the rows, largest key first |
| Rows.CutDominates | project/app/api/tracking/route.ts:39-40 | cutting rows ordered newest first leaves nothing behind the cut newer than a row before it |
| Records.FindCar | project/app/api/bookings/route.ts:95-99 | a found car is in the table and has the requested id; when ids are unique, a car is found exactly when one with that id is stored |
| Bookings.Candidates | project/app/api/bookings/route.ts:119-130 | a row is a candidate iff the query answered, the requested dates are real, and the row has the same car, a pending/confirmed/active status and a date range meeting the request's |
| Bookings.ThreeWayOverlap | project/app/api/bookings/route.ts:132-140 | any true overlap is caught; for positive-length windows the three-way test is exactly `s < be ∧ bs < e`; touching windows do not clash |
| Bookings.ClashOnInstants | project/app/api/bookings/route.ts:132-140 | between real instants the test applied to a candidate is the three-way overlap |
| Bookings.ClashWithInvalidDate | project/app/api/bookings/route.ts:116-140 | an invalid requested start leaves only the end clause, an invalid end only the start clause, and an invalid stored window never clashes |
| Bookings.HoursBetween | project/app/api/bookings/route.ts:156 | whole hours elapsed, rounded toward zero, for either sign |
| Bookings.DaysBetween | project/app/api/bookings/route.ts:160 | whole days elapsed, rounded toward zero, for either sign |
| Bookings.ChargedUnits | project/app/api/bookings/route.ts:155-162 | at least one unit; under two units of time bill one; otherwise the whole units elapsed |
| Bookings.NewBooking | project/app/api/bookings/route.ts:166-180 | the record is pending and unpaid, copies the request's car, dates, times and pickup, and sets only the count matching its type |
| Bookings.Price | project/app/api/bookings/route.ts:150-163 | the counters the handler updates: the matching count is the billed units, the other stays 0, and the price is that count × the car's rate |
| Bookings.Admission | project/app/api/bookings/route.ts:86-199 | each outcome (401, 400 schema, 404 car, 400 unavailable, 400 already booked, 400 insert refused, 201) holds exactly under its conditions, in handler order; a created row is the priced pending record |
| Bookings.AdmittedWhenClear | project/app/api/bookings/route.ts:150-199 | a request that clears every check is created, priced at its billed units × the car's rate for its type |
| Bookings.RefusedWhenClashing | project/app/api/bookings/route.ts:142-147 | a request that passes the car checks and meets a clashing candidate is refused as already booked |
| Bookings.ConflictIsAClash | project/app/api/bookings/route.ts:130-140 | a conflict among the candidates is a stored row of that car, with a blocking status, that clashes with the request |
| Bookings.RefusalNamesABooking | project/app/api/bookings/route.ts:130-147 | every "already booked" refusal has such a row behind it, and only when the query answered |
| Bookings.PrefilterSound | project/app/api/bookings/route.ts:124 | a stored booking whose window meets the request's passes the date-only pre-filter |
| Bookings.OverlapIsCaught | project/app/api/bookings/route.ts:119-140 | a blocking row of the same car whose window meets the request's makes the conflict test fire |
| Bookings.ClearedRequestCollidesWithNone | project/app/api/bookings/route.ts:119-147 | a request cleared by an answered conflict query collides with no stored row |
| Bookings.AppendDisjoint | project/app/api/bookings/route.ts:182-184 | appending a row that collides with no other keeps the table's windows disjoint |
| Bookings.AdmissionKeepsWindowsDisjoint | project/app/api/bookings/route.ts:119-184 | sequential admission keeps every row storable and the windows of rows holding one car pairwise disjoint |
| Bookings.AdmittedRowJoinsTable | project/app/api/bookings/route.ts:166-184 | the row inserted is the one the decision returns, and the table stays storable and, with an answered query, disjoint |
| Bookings.CandidatesIgnoreClosed | project/app/api/bookings/route.ts:123 | a completed or cancelled row never becomes a candidate |
| Bookings.ClosedBookingsNeverBlock | project/app/api/bookings/route.ts:123 | adding a completed or cancelled row changes no admission decision |
| Bookings.FailedConflictQueryAdmitsOverlap | project/app/api/bookings/route.ts:126-130 | with a failed conflict query an overlapping request is created; with an answered one it is refused |
| Bookings.BookingTable.Post | project/app/api/bookings/route.ts:86-199 | the handler step by step returns the decision `Admission` takes, appends exactly the created row, and keeps the table valid and disjoint |
| Bookings.TwoHoursAndTwoDays | project/app/api/bookings/route.ts:155-162 | 120 minutes bill two hours and 2880 minutes two days |
| Bookings.BackToBackIsAdmitted | project/app/api/bookings/route.ts:135-163 | next to a 10:00–14:00 booking, 14:00–16:00 is admitted at two hours × the hourly rate |
| Bookings.OverlappingRequestIsRefused | project/app/api/bookings/route.ts:135-147 | next to a 10:00–14:00 booking, 12:00–16:00 is refused as already booked |
| Bookings.InvalidStartStillClashes | project/app/api/bookings/route.ts:116-146 | a request from `99:00` to 12:00 beside a 10:00–14:00 booking has an invalid start, yet is refused as already booked |
| Bookings.DailyPricingExample | project/app/api/bookings/route.ts:159-163 | two days at a daily rate of 50 are billed two days and cost 100 |
| Bookings.ListBookings | project/app/api/bookings/route.ts:28-65 | 401 without a session; otherwise newest first, and each row kept, as often as stored, exactly when the caller may see it |
| Bookings.NonAdminSeesOnlyOwnRows | project/app/api/bookings/route.ts:51-57 | a non-admin sees only their own rows, and the `user_id` parameter changes nothing for them |
| Bookings.AdminSeesEverything | project/app/api/bookings/route.ts:52-57 | an admin with no parameters sees every row |
| Middleware.MarkerInSerialization | project/middleware.ts:10 | the rendered cookie header holds the marker exactly when some cookie's name or value does |
| Middleware.HasAuthCookie | project/middleware.ts:9-10 | a cookie named `sb-access-token`, or the marker inside some cookie's name or value |
| Middleware.Gatekeep | project/middleware.ts:12-32 | to the login page exactly for `/admin`/`/dashboard` without a cookie; to the dashboard exactly for `/auth` with one; otherwise pass |
| Middleware.Gate | project/middleware.ts:35-41 | an unmatched path always passes; a redirect goes only to the login page or the dashboard |
| Middleware.MatchedPathsAreGated | project/middleware.ts:35-41 | on a matched path the gate takes the middleware's decision, and every matched path has one of the three prefixes |
| Middleware.AuthPagesArePublic | project/middleware.ts:13-30 | no path is under `/auth` and under a private prefix |
| Middleware.CookieOpensPrivateAreas | project/middleware.ts:17-25 | with a session cookie `/admin` and `/dashboard` pass, with no role check |
| Middleware.NoRedirectLoop | project/middleware.ts:13-32 | requesting a redirect target with the same cookies passes |
| Middleware.MatcherIsNarrowerThanPrefix | project/middleware.ts:35-41 | `/administrator` would be redirected by the body but is never matched, so it passes |
| Tracking.BookingById | project/app/api/tracking/route.ts:54-58 | a booking found by id is in the table with that id; when ids are unique, one is found exactly when a booking with that id is stored |
| Tracking.HeldBooking | project/app/api/tracking/route.ts:68-75 | a confirmed or active booking of this user on this car, and none exactly when there is no such booking |
| Tracking.ByBookingAndCar | project/app/api/tracking/route.ts:42-48 | keeps exactly the samples of the named booking and the named car |
| Tracking.Page | project/app/api/tracking/route.ts:36-40 | newest first, drawn from the rows, exactly min(cap, rows) of them, no row left out newer than a row kept, and all of them when they fit |
| Tracking.ReadTracking | project/app/api/tracking/route.ts:20-96 | 401 without a session; 403 exactly when the non-admin checks refuse; otherwise a newest page of the samples that the filters and the narrowing select: every row selected, min(cap, selected) rows, none left out newer than one returned, and every selected sample when they fit |
| Tracking.NamedOwnBookingIsRead | project/app/api/tracking/route.ts:42-65 | a renter naming a booking of theirs is served, and reads every selected sample when the log fits the cap |
| Tracking.HeldCarIsRead | project/app/api/tracking/route.ts:66-85 | a renter naming a car they hold under a confirmed or active booking is served, and reads every sample of the held booking on that car when the log fits the cap |
| Tracking.CompleteWhenItFits | project/app/api/tracking/route.ts:36-85 | a served read returns every selected sample when the log fits the cap |
| Tracking.NamedReadsStayOwn | project/app/api/tracking/route.ts:52-85 | a non-admin naming a booking or a car only reads samples of their own bookings |
| Tracking.PendingDoesNotCount | project/app/api/tracking/route.ts:73-82 | a pending booking does not let its renter follow the car: 403 |
| Tracking.UnnamedReadsAreUnrestricted | project/app/api/tracking/route.ts:34-52 | an admin, or a non-admin naming nothing, gets samples of the whole log, and every matching sample when the cap allows |
| Tracking.UnscopedReadLeaks | project/app/api/tracking/route.ts:50-52 | as written, a renter who names nothing reads a sample of another renter's booking, in a log consistent with the tables; the intended read returns nothing |
| Tracking.ReadOwnTracking | project/app/api/tracking/route.ts:50-52 | the intended scoping: the handler as written unless a non-admin names nothing; then a newest page of the samples of their own bookings, all of them when they fit; a non-admin only ever reads samples of their own bookings |
| Tracking.NoneOwned | project/app/api/tracking/route.ts:50-52 | when no sample is attached to the user's bookings, the intended read returns no rows |
| Tracking.BookingOnCar | project/app/api/tracking/route.ts:132-137 | a found booking has the named id and the named car; when ids are unique, one is found exactly when such a booking is stored |
| Tracking.RecordSample | project/app/api/tracking/route.ts:106-160 | 401, 400 (schema), 404 (car), 404 (booking on car) each exactly under its conditions; a recorded sample is the input unchanged, in range |
| Tracking.RecordingKeepsLogConsistent | project/app/api/tracking/route.ts:116-151 | appending a recorded sample keeps every sample on a known car, in range, and on a booking of that car |
| Tracking.OffGlobeIsInvalid | project/app/api/tracking/route.ts:14-15 | a latitude or longitude off the globe is answered with 400 |
| Cars.BoundedPrice | project/app/api/cars/route.ts:71-79 | the bounds apply to the hourly price for `booking_type=hourly` and to the daily price otherwise |
| Cars.Step | project/app/api/cars/route.ts:55-83 | one optional filter step keeps each car as often as stored when it passes or the parameter is absent |
| Cars.FieldSteps | project/app/api/cars/route.ts:55-69 | the type, transmission, fuel and availability steps keep exactly the cars that pass all four |
| Cars.PriceAndSearchSteps | project/app/api/cars/route.ts:71-83 | the two bound steps and the search keep exactly the cars that pass all three |
| Cars.ListCars | project/app/api/cars/route.ts:40-83 | newest first, and each car listed, as often as stored, exactly when it passes every requested filter |
| Cars.BoundsAreInclusive | project/app/api/cars/route.ts:71-79 | a car priced exactly at both bounds is listed |
| Cars.DailyBoundsIgnoreHourlyPrice | project/app/api/cars/route.ts:53 | unless the search is hourly, the hourly price plays no part |
| Cars.AvailableMeansTrueText | project/app/api/cars/route.ts:67-69 | any `available` text other than `true` hides the available cars |
| Cars.SearchIgnoresCase | project/app/api/cars/route.ts:81-83 | a term in capitals finds exactly the cars the term finds |
| Cars.VerbatimIsFound | project/app/api/cars/route.ts:82 | a verbatim occurrence is also a case-insensitive one |
| Cars.MakeMatchIsListed | project/app/api/cars/route.ts:81-83 | a car whose make contains the term is listed by the search alone |
| Cars.CreateCar | project/app/api/cars/route.ts:105-149 | 401 without a session, 403 for a non-admin, 400 for an invalid body, else the parsed body is inserted |
| Cars.OnlyAdminsCreate | project/app/api/cars/route.ts:107-108 | a non-admin's outcome does not depend on the body, and nothing is inserted |
| Cars.CreatedCarIsSane | project/app/api/cars/route.ts:12-32 | a created car's year, seats and mileage are whole and in range and its prices are positive |

## Left out

- Database query execution, its errors other than the modelled ones (a failed lookup, a failed insert, an enum or uuid cast error on a `status` or `car_id` parameter) and the 500 catch-all: the handlers' results on success and on the modelled checks only.
- Database defaults of an inserted car (`available`, `images`, timestamps): `CreateCar` returns the parsed body that is handed to the insert.
- The joined `user`/`car` columns the booking queries select: they do not affect any decision.
- The `images` URL validation and the `location` object of the car schema: accepted as given.
- `parseFloat`/`parseInt` of text that is not a number, and a negative `limit`: the parameters are modelled as the numbers they parse to.
- Calendar.Instant: time zones and daylight saving are not modelled; every day has 1440 minutes, so `differenceInDays` across a clock change is not captured.
- Calendar.Instant: a day 29–31 past the end of its month (`2024-02-30`) is rolled over to the next month by the JavaScript date parser, but has no instant in the model. No outcome depends on it: such a date makes the conflict query fail before its instant is compared, and the insert fail before its price is used.
- `encodeURIComponent` in the rendered cookie header: names and values are rendered verbatim.
- The `%` and `_` wildcards and the `or`-syntax characters inside a search term: the search is a plain substring test.
- Case folding beyond ASCII letters.
- Rows.Single: a `.single()` over duplicate ids fails like a missing row; the model returns nothing, as the handler then does.
- Rows.First: the row order under `.limit(1)` is unspecified; the model takes table order.
- The race between two concurrent `POST /api/bookings` calls: admission is modelled sequentially.
- The `[id]` routes, payments, signup and notifications are not part of this model.
- Tracking.Page: among samples with the same timestamp, which of them fill the last places under the cap is left open, as the database leaves it.
- The primary keys of `cars` and `bookings` are assumptions of the lookup contracts (`CarIdsUnique`, `BookingIdsUnique`), not enforced by the model's tables.

## Findings

| source | as written | input that shows it | evidently intended | confidence | as-written member | corrected member |
|---|---|---|---|---|---|---|
| project/app/api/tracking/route.ts:50-52 | the ownership check runs only when `booking_id` or `car_id` is given, so a non-admin who passes neither reads the whole tracking log | a signed-in non-admin, one booking of another renter, one sample of that booking on its car, no parameters: the sample is returned | as the comment above the check says, a non-admin sees tracking only for their own bookings | not executed | Tracking.UnscopedReadLeaks | Tracking.ReadOwnTracking |
