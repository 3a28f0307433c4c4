/**
 * POST /api/bookings: admission of a reservation (shape check, car check,
 * conflict pre-filter, instant-level overlap test, pricing, record build)
 * and the bookings table it appends to; GET /api/bookings: which rows a
 * caller may list.
 */
module Bookings {
  import opened Wrappers
  import opened Text
  import opened Calendar
  import opened Auth
  import opened Records
  import Rows

  // ---- Request shape -------------------------------------------------------

  datatype BookingRequest = BookingRequest(
    car_id: string,
    start_date: string,
    end_date: string,
    start_time: string,
    end_time: string,
    booking_type: string,
    pickup_location: Option<Location>)

  /** The request schema: a uuid car id, `YYYY-MM-DD` dates, `HH:MM` times, hourly or daily. */
  predicate WellShaped(req: BookingRequest) {
    IsUuid(req.car_id) &&
    DateShape(req.start_date) && DateShape(req.end_date) &&
    TimeShape(req.start_time) && TimeShape(req.end_time) &&
    (req.booking_type == "hourly" || req.booking_type == "daily")
  }

  function KindOf(name: string): BookingType {
    if name == "hourly" then Hourly else Daily
  }

  /** Every date and time is one the table's typed columns accept. */
  predicate Storable(req: BookingRequest) {
    ValidDate(req.start_date) && ValidDate(req.end_date) &&
    ValidTime(req.start_time) && ValidTime(req.end_time)
  }

  /** A row as the table holds it: its dates and times are real calendar values. */
  predicate Stored(b: Booking) {
    ValidDate(b.start_date) && ValidDate(b.end_date) &&
    ValidTime(b.start_time) && ValidTime(b.end_time)
  }

  predicate AllStored(rows: seq<Booking>) {
    forall i :: 0 <= i < |rows| ==> Stored(rows[i])
  }

  function RequestStart(req: BookingRequest): Option<int> { Instant(req.start_date, req.start_time) }
  function RequestEnd(req: BookingRequest): Option<int> { Instant(req.end_date, req.end_time) }
  function StartOf(b: Booking): Option<int> { Instant(b.start_date, b.start_time) }
  function EndOf(b: Booking): Option<int> { Instant(b.end_date, b.end_time) }

  // ---- Conflict detection --------------------------------------------------

  /** The statuses that hold a car: pending, confirmed and active. */
  predicate Blocks(s: BookingStatus) {
    s == Pending || s == Confirmed || s == Active
  }

  /**
   * The pre-filter query: same car, a blocking status, and a stored date
   * range that meets the requested one (dates compared as text).
   */
  predicate IsCandidate(b: Booking, req: BookingRequest) {
    b.car_id == req.car_id && Blocks(b.status) &&
    LexLe(b.start_date, req.end_date) && LexLe(req.start_date, b.end_date)
  }

  /**
   * The rows the pre-filter returns. The filter compares dates only, so an
   * invalid time cannot affect it. The model takes `start_date` and
   * `end_date` to be typed date columns: an out-of-range requested date then
   * makes the query fail, and a failed query is only logged, so there are no
   * candidates.
   */
  function Candidates(rows: seq<Booking>, req: BookingRequest, queryFailed: bool): (r: seq<Booking>)
    ensures forall b :: b in r <==>
      !queryFailed && ValidDate(req.start_date) && ValidDate(req.end_date) && b in rows && IsCandidate(b, req)
  {
    if queryFailed || !(ValidDate(req.start_date) && ValidDate(req.end_date)) then []
    else Rows.Filter(rows, (b: Booking) => IsCandidate(b, req))
  }

  /**
   * The three-way overlap test on instants: the requested start inside the
   * booking, the requested end inside it, or the request enclosing it.
   */
  function ThreeWayOverlap(s: int, e: int, bs: int, be: int): (r: bool)
    ensures s < be && bs < e ==> r
    ensures bs < be && s < e ==> (r <==> s < be && bs < e)
    ensures bs < be && s < e && (s == be || e == bs) ==> !r
  {
    (s >= bs && s < be) || (e > bs && e <= be) || (s <= bs && e >= be)
  }

  /** `a < b` on two `Date`s: false when either is an Invalid Date. */
  predicate Earlier(a: Option<int>, b: Option<int>) {
    a.Some? && b.Some? && a.value < b.value
  }

  /** `a <= b` on two `Date`s: false when either is an Invalid Date. */
  predicate NoLater(a: Option<int>, b: Option<int>) {
    a.Some? && b.Some? && a.value <= b.value
  }

  /**
   * The three-way test applied to one candidate, one comparison at a time:
   * an Invalid Date makes false only the comparisons it takes part in.
   */
  predicate ClashesWith(req: BookingRequest, b: Booking) {
    var s, e, bs, be := RequestStart(req), RequestEnd(req), StartOf(b), EndOf(b);
    (NoLater(bs, s) && Earlier(s, be)) || (Earlier(bs, e) && NoLater(e, be)) || (NoLater(s, bs) && NoLater(be, e))
  }

  /** Between real instants the test is the three-way overlap. */
  lemma ClashOnInstants(req: BookingRequest, b: Booking)
    requires RequestStart(req).Some? && RequestEnd(req).Some? && StartOf(b).Some? && EndOf(b).Some?
    ensures ClashesWith(req, b) <==>
      ThreeWayOverlap(RequestStart(req).value, RequestEnd(req).value, StartOf(b).value, EndOf(b).value)
  {
  }

  /**
   * With an invalid requested start only the end clause can fire, with an
   * invalid requested end only the start clause, and an invalid stored
   * window never clashes.
   */
  lemma ClashWithInvalidDate(req: BookingRequest, b: Booking)
    ensures RequestStart(req).None? ==>
      (ClashesWith(req, b) <==> Earlier(StartOf(b), RequestEnd(req)) && NoLater(RequestEnd(req), EndOf(b)))
    ensures RequestEnd(req).None? ==>
      (ClashesWith(req, b) <==> NoLater(StartOf(b), RequestStart(req)) && Earlier(RequestStart(req), EndOf(b)))
    ensures StartOf(b).None? || EndOf(b).None? ==> !ClashesWith(req, b)
  {
  }

  /** `candidates.some(...)`. */
  predicate HasConflict(candidates: seq<Booking>, req: BookingRequest) {
    exists i :: 0 <= i < |candidates| && ClashesWith(req, candidates[i])
  }

  // ---- Pricing -------------------------------------------------------------

  /** `Math.trunc(a / d)`: division rounding toward zero. */
  function TruncDiv(a: int, d: int): int
    requires d > 0
  {
    if a >= 0 then a / d else -((-a) / d)
  }

  /** `differenceInHours`: whole hours elapsed, rounded toward zero. */
  function HoursBetween(minutes: int): (h: int)
    ensures minutes >= 0 ==> 0 <= h * 60 <= minutes < h * 60 + 60
    ensures minutes < 0 ==> h * 60 - 60 < minutes <= h * 60 <= 0
  {
    TruncDiv(minutes, 60)
  }

  /** `differenceInDays` on a calendar without daylight saving: whole days, rounded toward zero. */
  function DaysBetween(minutes: int): (d: int)
    ensures minutes >= 0 ==> 0 <= d * 1440 <= minutes < d * 1440 + 1440
    ensures minutes < 0 ==> d * 1440 - 1440 < minutes <= d * 1440 <= 0
  {
    TruncDiv(minutes, 1440)
  }

  /**
   * Units billed for a window of `minutes`: the whole hours or days elapsed,
   * but never fewer than one (so an end before the start bills one unit).
   */
  function ChargedUnits(kind: BookingType, minutes: int): (u: int)
    ensures u >= 1
    ensures kind == Hourly ==> (minutes < 120 ==> u == 1) && (minutes >= 60 ==> u * 60 <= minutes < u * 60 + 60)
    ensures kind == Daily ==> (minutes < 2880 ==> u == 1) && (minutes >= 1440 ==> u * 1440 <= minutes < u * 1440 + 1440)
  {
    var whole := if kind == Hourly then HoursBetween(minutes) else DaysBetween(minutes);
    if whole < 1 then 1 else whole
  }

  function RateOf(kind: BookingType, car: Car): real {
    if kind == Hourly then car.hourly_price else car.daily_price
  }

  /** `totalHours * car.hourly_price` or `totalDays * car.daily_price`: the billed units at the car's rate. */
  function Total(kind: BookingType, car: Car, units: int): real {
    (units as real) * RateOf(kind, car)
  }

  /**
   * The row inserted for an admitted request: pending, unpaid, the request's
   * dates and times unchanged, and only the count matching its type set.
   */
  function NewBooking(id: string, userId: string, req: BookingRequest, units: int, price: real, now: int): (b: Booking)
    ensures b.status == Pending && b.payment_status == PaymentPending
    ensures b.id == id && b.user_id == userId && b.car_id == req.car_id && b.created_at == now
    ensures b.start_date == req.start_date && b.end_date == req.end_date
    ensures b.start_time == req.start_time && b.end_time == req.end_time
    ensures b.pickup_location == req.pickup_location
    ensures b.booking_type == KindOf(req.booking_type)
    ensures b.total_hours == (if b.booking_type == Hourly then Some(units) else None)
    ensures b.total_days == (if b.booking_type == Daily then Some(units) else None)
    ensures b.total_price == price
  {
    var kind := KindOf(req.booking_type);
    Booking(id, userId, req.car_id, req.start_date, req.end_date, req.start_time, req.end_time, kind,
      if kind == Hourly then Some(units) else None,
      if kind == Daily then Some(units) else None,
      price, Pending, PaymentPending, req.pickup_location, now)
  }

  // ---- Admission -----------------------------------------------------------

  datatype PostOutcome =
    | Unauthorized    // 401
    | InvalidInput    // 400: the request schema rejected the body
    | CarNotFound     // 404
    | CarUnavailable  // 400
    | AlreadyBooked   // 400: an overlapping booking holds the car
    | InsertRejected  // 400: the insert refused an out-of-range date or time
    | Created(booking: Booking)  // 201

  /** A signed-in caller sent a well-shaped body naming a car that exists and is available. */
  predicate Cleared(caller: Option<Caller>, req: BookingRequest, cars: seq<Car>) {
    caller.Some? && WellShaped(req) && FindCar(cars, req.car_id).Some? && FindCar(cars, req.car_id).value.available
  }

  /** The rest of the decision once the car is known: the conflict test, then the insert. */
  function Admit(userId: string, req: BookingRequest, car: Car, candidates: seq<Booking>, id: string, now: int): PostOutcome {
    if HasConflict(candidates, req) then AlreadyBooked
    else if !Storable(req) then InsertRejected
    else
      var kind := KindOf(req.booking_type);
      var units := ChargedUnits(kind, RequestEnd(req).value - RequestStart(req).value);
      Created(NewBooking(id, userId, req, units, Total(kind, car, units), now))
  }

  /**
   * The whole decision of POST /api/bookings, in the order the handler takes
   * it. `conflictQueryFailed` is whether the pre-filter query errored for a
   * reason other than an out-of-range date; `id` and `now` are what the
   * table assigns to a new row.
   */
  function Admission(caller: Option<Caller>, req: BookingRequest, cars: seq<Car>, rows: seq<Booking>,
                     conflictQueryFailed: bool, id: string, now: int): (r: PostOutcome)
    ensures r == Unauthorized <==> caller.None?
    ensures r == InvalidInput <==> caller.Some? && !WellShaped(req)
    ensures r == CarNotFound <==> caller.Some? && WellShaped(req) && FindCar(cars, req.car_id).None?
    ensures r == CarUnavailable <==>
      caller.Some? && WellShaped(req) && FindCar(cars, req.car_id).Some? && !FindCar(cars, req.car_id).value.available
    ensures r == AlreadyBooked <==>
      Cleared(caller, req, cars) && HasConflict(Candidates(rows, req, conflictQueryFailed), req)
    ensures r == InsertRejected <==>
      Cleared(caller, req, cars) && !HasConflict(Candidates(rows, req, conflictQueryFailed), req) && !Storable(req)
    ensures r.Created? ==>
      Cleared(caller, req, cars) && !HasConflict(Candidates(rows, req, conflictQueryFailed), req) && Storable(req) &&
      var kind := KindOf(req.booking_type);
      var units := ChargedUnits(kind, RequestEnd(req).value - RequestStart(req).value);
      r.booking == NewBooking(id, caller.value.id, req, units, Total(kind, FindCar(cars, req.car_id).value, units), now)
  {
    if caller.None? then Unauthorized
    else if !WellShaped(req) then InvalidInput
    else
      match FindCar(cars, req.car_id)
      case None => CarNotFound
      case Some(car) =>
        if !car.available then CarUnavailable
        else Admit(caller.value.id, req, car, Candidates(rows, req, conflictQueryFailed), id, now)
  }

  /** A conflict among the candidates is a stored row that holds the car and clashes with the request. */
  lemma ConflictIsAClash(rows: seq<Booking>, req: BookingRequest, failed: bool)
    requires HasConflict(Candidates(rows, req, failed), req)
    ensures !failed && exists b :: b in rows && IsCandidate(b, req) && ClashesWith(req, b)
  {
    var candidates := Candidates(rows, req, failed);
    var k :| 0 <= k < |candidates| && ClashesWith(req, candidates[k]);
    assert candidates[k] in candidates;
  }

  /** A refusal as already booked always names a stored row that holds the car and clashes. */
  lemma RefusalNamesABooking(caller: Option<Caller>, req: BookingRequest, cars: seq<Car>, rows: seq<Booking>,
                             failed: bool, id: string, now: int)
    requires Admission(caller, req, cars, rows, failed, id, now) == AlreadyBooked
    ensures !failed && exists b :: b in rows && IsCandidate(b, req) && ClashesWith(req, b)
  {
    ConflictIsAClash(rows, req, failed);
  }

  /** Conversely, a request that clears every check is admitted, at the price of its billed units. */
  lemma AdmittedWhenClear(caller: Caller, req: BookingRequest, cars: seq<Car>, rows: seq<Booking>,
                          failed: bool, id: string, now: int, car: Car)
    requires WellShaped(req) && Storable(req)
    requires FindCar(cars, req.car_id) == Some(car) && car.available
    requires !HasConflict(Candidates(rows, req, failed), req)
    ensures var kind := KindOf(req.booking_type);
      var units := ChargedUnits(kind, RequestEnd(req).value - RequestStart(req).value);
      Admission(Some(caller), req, cars, rows, failed, id, now) ==
        Created(NewBooking(id, caller.id, req, units, Total(kind, car, units), now))
  {
  }

  /** Conversely, a request that passes the car checks but meets a candidate is refused as already booked. */
  lemma RefusedWhenClashing(caller: Caller, req: BookingRequest, cars: seq<Car>, rows: seq<Booking>,
                            failed: bool, id: string, now: int)
    requires WellShaped(req)
    requires FindCar(cars, req.car_id).Some? && FindCar(cars, req.car_id).value.available
    requires HasConflict(Candidates(rows, req, failed), req)
    ensures Admission(Some(caller), req, cars, rows, failed, id, now) == AlreadyBooked
  {
  }

  // ---- The table invariant -------------------------------------------------

  /** Windows `[start, end)` of two rows share an instant. */
  predicate WindowsMeet(a: Booking, b: Booking) {
    StartOf(a).Some? && EndOf(a).Some? && StartOf(b).Some? && EndOf(b).Some? &&
    StartOf(a).value < EndOf(b).value && StartOf(b).value < EndOf(a).value
  }

  /** No two rows holding the same car have windows that share an instant. */
  predicate ActiveWindowsDisjoint(rows: seq<Booking>) {
    forall i, j :: 0 <= i < |rows| && 0 <= j < |rows| && i != j ==> !Collide(rows[i], rows[j])
  }

  /** Two rows hold the same car over windows that share an instant. */
  predicate Collide(a: Booking, b: Booking) {
    a.car_id == b.car_id && Blocks(a.status) && Blocks(b.status) && WindowsMeet(a, b)
  }

  /**
   * The date-only pre-filter never drops a booking that truly overlaps the
   * request: a window that meets the requested one also meets its date range.
   */
  lemma PrefilterSound(b: Booking, req: BookingRequest)
    requires Stored(b) && Storable(req)
    requires RequestStart(req).value < EndOf(b).value && StartOf(b).value < RequestEnd(req).value
    ensures LexLe(b.start_date, req.end_date) && LexLe(req.start_date, b.end_date)
  {
    EarlierInstantEarlierDate(b.start_date, b.start_time, req.end_date, req.end_time);
    EarlierInstantEarlierDate(req.start_date, req.start_time, b.end_date, b.end_time);
  }

  /** A blocking row of the same car whose window meets the request stops its admission. */
  lemma OverlapIsCaught(req: BookingRequest, rows: seq<Booking>, b: Booking)
    requires b in rows && Stored(b) && Storable(req)
    requires b.car_id == req.car_id && Blocks(b.status)
    requires RequestStart(req).value < EndOf(b).value && StartOf(b).value < RequestEnd(req).value
    ensures HasConflict(Candidates(rows, req, false), req)
  {
    PrefilterSound(b, req);
    var candidates := Candidates(rows, req, false);
    assert b in candidates;
    var k :| 0 <= k < |candidates| && candidates[k] == b;
    assert ClashesWith(req, candidates[k]);
  }

  /** A row that holds the car of the request over exactly the requested window. */
  predicate RowOfRequest(nb: Booking, req: BookingRequest) {
    nb.car_id == req.car_id && nb.start_date == req.start_date && nb.end_date == req.end_date &&
    nb.start_time == req.start_time && nb.end_time == req.end_time
  }

  /** A request the conflict test cleared collides with no stored row. */
  lemma ClearedRequestCollidesWithNone(rows: seq<Booking>, req: BookingRequest, nb: Booking)
    requires AllStored(rows) && Storable(req) && RowOfRequest(nb, req)
    requires !HasConflict(Candidates(rows, req, false), req)
    ensures forall k :: 0 <= k < |rows| ==> !Collide(nb, rows[k]) && !Collide(rows[k], nb)
  {
    assert StartOf(nb) == RequestStart(req) && EndOf(nb) == RequestEnd(req);
    forall k | 0 <= k < |rows|
      ensures !Collide(nb, rows[k]) && !Collide(rows[k], nb)
    {
      assert Stored(rows[k]);
      if Collide(nb, rows[k]) || Collide(rows[k], nb) {
        OverlapIsCaught(req, rows, rows[k]);
      }
    }
  }

  /** Appending a row that collides with none of the others keeps the windows disjoint. */
  lemma AppendDisjoint(rows: seq<Booking>, nb: Booking)
    requires ActiveWindowsDisjoint(rows)
    requires forall k :: 0 <= k < |rows| ==> !Collide(nb, rows[k]) && !Collide(rows[k], nb)
    ensures ActiveWindowsDisjoint(rows + [nb])
  {
    var all := rows + [nb];
    forall i, j | 0 <= i < |all| && 0 <= j < |all| && i != j
      ensures !Collide(all[i], all[j])
    {
      if i == |rows| {
        assert all[j] == rows[j];
      } else if j == |rows| {
        assert all[i] == rows[i];
      } else {
        assert all[i] == rows[i] && all[j] == rows[j];
      }
    }
  }

  /**
   * Sequential admission keeps the windows of the bookings that hold a car
   * pairwise disjoint, as long as the conflict query answers.
   */
  lemma AdmissionKeepsWindowsDisjoint(caller: Option<Caller>, req: BookingRequest, cars: seq<Car>,
                                      rows: seq<Booking>, id: string, now: int)
    requires AllStored(rows) && ActiveWindowsDisjoint(rows)
    ensures var r := Admission(caller, req, cars, rows, false, id, now);
      r.Created? ==> AllStored(rows + [r.booking]) && ActiveWindowsDisjoint(rows + [r.booking])
  {
    var r := Admission(caller, req, cars, rows, false, id, now);
    if r.Created? {
      var nb := r.booking;
      assert RowOfRequest(nb, req) && Stored(nb);
      ClearedRequestCollidesWithNone(rows, req, nb);
      AppendDisjoint(rows, nb);
      AppendStored(rows, nb);
    }
  }

  lemma AppendStored(rows: seq<Booking>, b: Booking)
    requires AllStored(rows) && Stored(b)
    ensures AllStored(rows + [b])
  {
    forall i | 0 <= i < |rows| + 1 ensures Stored((rows + [b])[i]) {
      if i < |rows| { assert (rows + [b])[i] == rows[i]; }
    }
  }

  /** Completed and cancelled rows never block: adding one changes no decision. */
  lemma ClosedBookingsNeverBlock(caller: Option<Caller>, req: BookingRequest, cars: seq<Car>,
                                 rows: seq<Booking>, closed: Booking, failed: bool, id: string, now: int)
    requires closed.status == Completed || closed.status == Cancelled
    ensures Admission(caller, req, cars, rows + [closed], failed, id, now) ==
            Admission(caller, req, cars, rows, failed, id, now)
  {
    CandidatesIgnoreClosed(rows, req, closed, failed);
  }

  lemma CandidatesIgnoreClosed(rows: seq<Booking>, req: BookingRequest, closed: Booking, failed: bool)
    requires closed.status == Completed || closed.status == Cancelled
    ensures Candidates(rows + [closed], req, failed) == Candidates(rows, req, failed)
  {
    Rows.FilterAppend(rows, closed, (b: Booking) => IsCandidate(b, req));
  }

  /**
   * A failed conflict query is only logged: a request whose window meets
   * that of a booking holding the car is then admitted all the same, where an
   * answered query would have refused it.
   */
  lemma FailedConflictQueryAdmitsOverlap(caller: Caller, req: BookingRequest, cars: seq<Car>,
                                         b: Booking, id: string, now: int)
    requires WellShaped(req) && Storable(req) && Stored(b)
    requires FindCar(cars, req.car_id).Some? && FindCar(cars, req.car_id).value.available
    requires b.car_id == req.car_id && Blocks(b.status)
    requires RequestStart(req).value < EndOf(b).value && StartOf(b).value < RequestEnd(req).value
    ensures Admission(Some(caller), req, cars, [b], true, id, now).Created?
    ensures Admission(Some(caller), req, cars, [b], false, id, now) == AlreadyBooked
  {
    assert Candidates([b], req, true) == [];
    AdmittedWhenClear(caller, req, cars, [b], true, id, now, FindCar(cars, req.car_id).value);
    OverlapIsCaught(req, [b], b);
    RefusedWhenClashing(caller, req, cars, [b], false, id, now);
  }

  /**
   * The pricing step: the billed hours (hourly) or days (daily), at least
   * one, times the car's rate for that unit; the other count stays zero.
   */
  method Price(kind: BookingType, car: Car, minutes: int) returns (totalHours: int, totalDays: int, totalPrice: real)
    ensures kind == Hourly ==> totalHours == ChargedUnits(kind, minutes) && totalDays == 0 &&
                               totalPrice == totalHours as real * car.hourly_price
    ensures kind == Daily ==> totalDays == ChargedUnits(kind, minutes) && totalHours == 0 &&
                              totalPrice == totalDays as real * car.daily_price
    ensures (if kind == Hourly then totalHours else totalDays) == ChargedUnits(kind, minutes)
    ensures totalPrice == Total(kind, car, ChargedUnits(kind, minutes))
  {
    totalHours, totalDays, totalPrice := 0, 0, 0.0;
    if kind == Hourly {
      totalHours := HoursBetween(minutes);
      if totalHours < 1 {
        totalHours := 1;
      }
      totalPrice := totalHours as real * car.hourly_price;
    } else {
      totalDays := DaysBetween(minutes);
      if totalDays < 1 {
        totalDays := 1;
      }
      totalPrice := totalDays as real * car.daily_price;
    }
  }

  // ---- The bookings table --------------------------------------------------

  /** The row an admitted request inserts is the one the decision returns, and the table stays sound. */
  lemma AdmittedRowJoinsTable(caller: Caller, req: BookingRequest, cars: seq<Car>, rows: seq<Booking>,
                              failed: bool, id: string, now: int, car: Car, record: Booking)
    requires AllStored(rows) && WellShaped(req) && Storable(req)
    requires FindCar(cars, req.car_id) == Some(car) && car.available
    requires !HasConflict(Candidates(rows, req, failed), req)
    requires var kind := KindOf(req.booking_type);
      var units := ChargedUnits(kind, RequestEnd(req).value - RequestStart(req).value);
      record == NewBooking(id, caller.id, req, units, Total(kind, car, units), now)
    ensures Admission(Some(caller), req, cars, rows, failed, id, now) == Created(record)
    ensures AllStored(rows + [record])
    ensures !failed && ActiveWindowsDisjoint(rows) ==> ActiveWindowsDisjoint(rows + [record])
  {
    AdmittedWhenClear(caller, req, cars, rows, failed, id, now, car);
    AppendStored(rows, record);
    if !failed && ActiveWindowsDisjoint(rows) {
      AdmissionKeepsWindowsDisjoint(Some(caller), req, cars, rows, id, now);
    }
  }

  class BookingTable {
    var rows: seq<Booking>

    ghost predicate Valid()
      reads this
    {
      AllStored(rows)
    }

    constructor ()
      ensures Valid() && rows == [] && ActiveWindowsDisjoint(rows)
    {
      rows := [];
    }

    /** POST /api/bookings: decide, price, and append the new row when admitted. */
    method Post(caller: Option<Caller>, req: BookingRequest, cars: seq<Car>,
                conflictQueryFailed: bool, id: string, now: int) returns (out: PostOutcome)
      requires Valid()
      modifies this
      ensures Valid()
      ensures out == Admission(caller, req, cars, old(rows), conflictQueryFailed, id, now)
      ensures rows == if out.Created? then old(rows) + [out.booking] else old(rows)
      ensures !conflictQueryFailed && ActiveWindowsDisjoint(old(rows)) ==> ActiveWindowsDisjoint(rows)
    {
      if caller.None? {
        return Unauthorized;
      }
      if !WellShaped(req) {
        return InvalidInput;
      }
      var car := FindCar(cars, req.car_id);
      if car.None? {
        return CarNotFound;
      }
      if !car.value.available {
        return CarUnavailable;
      }
      var candidates := Candidates(rows, req, conflictQueryFailed);
      if HasConflict(candidates, req) {
        return AlreadyBooked;
      }
      // A row built from an out-of-range date or time is refused by the insert;
      // the price computed for it is never observed.
      if !Storable(req) {
        return InsertRejected;
      }
      var minutes := RequestEnd(req).value - RequestStart(req).value;
      var kind := KindOf(req.booking_type);
      var totalHours, totalDays, totalPrice := Price(kind, car.value, minutes);
      var record := NewBooking(id, caller.value.id, req,
        if kind == Hourly then totalHours else totalDays, totalPrice, now);
      AdmittedRowJoinsTable(caller.value, req, cars, rows, conflictQueryFailed, id, now, car.value, record);
      rows := rows + [record];
      out := Created(record);
    }
  }

  // ---- Worked examples -----------------------------------------------------

  /** A booking of the car on 2024-06-01 from 10:00 to 14:00 that still holds it. */
  predicate MorningBooking(b: Booking, carId: string) {
    b.car_id == carId && Blocks(b.status) &&
    b.start_date == "2024-06-01" && b.end_date == "2024-06-01" &&
    b.start_time == "10:00" && b.end_time == "14:00"
  }

  function HourlyRequest(carId: string, startTime: string, endTime: string): BookingRequest {
    BookingRequest(carId, "2024-06-01", "2024-06-01", startTime, endTime, "hourly", None)
  }

  lemma DaysBefore2024()
    ensures DaysBeforeYear(2024) == 738885
  {
  }

  lemma DaysBeforeJune2024()
    ensures DaysBeforeMonth(2024, 6) == 152
  {
    assert IsLeapYear(2024);
  }

  lemma JuneFirstFields()
    ensures DateShape("2024-06-01")
    ensures YearOf("2024-06-01") == 2024 && MonthOf("2024-06-01") == 6 && DayOf("2024-06-01") == 1
  {
    assert DateShape("2024-06-01");
    DateFields("2024-06-01");
  }

  lemma JuneThirdFields()
    ensures DateShape("2024-06-03")
    ensures YearOf("2024-06-03") == 2024 && MonthOf("2024-06-03") == 6 && DayOf("2024-06-03") == 3
  {
    assert DateShape("2024-06-03");
    DateFields("2024-06-03");
  }

  /** The days the examples use, counted from 0001-01-01. */
  lemma JuneFirst()
    ensures ValidDate("2024-06-01") && DayNumber("2024-06-01") == 739037
  {
    JuneFirstFields();
    DaysBefore2024();
    DaysBeforeJune2024();
  }

  lemma JuneThird()
    ensures ValidDate("2024-06-03") && DayNumber("2024-06-03") == 739039
  {
    JuneThirdFields();
    DaysBefore2024();
    DaysBeforeJune2024();
  }

  /** The times of day the examples use, in minutes after midnight. */
  lemma Ten()
    ensures ValidTime("10:00") && MinuteOfDay("10:00") == 600
  {
    assert TimeShape("10:00");
    ClockFields("10:00");
  }

  lemma Twelve()
    ensures ValidTime("12:00") && MinuteOfDay("12:00") == 720
  {
    assert TimeShape("12:00");
    ClockFields("12:00");
  }

  lemma Fourteen()
    ensures ValidTime("14:00") && MinuteOfDay("14:00") == 840
  {
    assert TimeShape("14:00");
    ClockFields("14:00");
  }

  lemma Sixteen()
    ensures ValidTime("16:00") && MinuteOfDay("16:00") == 960
  {
    assert TimeShape("16:00");
    ClockFields("16:00");
  }

  /** The instants of 2024-06-01 at the hours the examples use, in minutes. */
  lemma JuneFirstInstants()
    ensures Instant("2024-06-01", "10:00") == Some(739037 * 1440 + 600)
    ensures Instant("2024-06-01", "12:00") == Some(739037 * 1440 + 720)
    ensures Instant("2024-06-01", "14:00") == Some(739037 * 1440 + 840)
    ensures Instant("2024-06-01", "16:00") == Some(739037 * 1440 + 960)
    ensures Instant("2024-06-03", "10:00") == Some(739039 * 1440 + 600)
  {
    JuneFirst();
    JuneThird();
    Ten();
    Twelve();
    Fourteen();
    Sixteen();
  }

  lemma OnlyCarIsFound(car: Car)
    ensures FindCar([car], car.id) == Some(car)
  {
    var m := Rows.Filter([car], (c: Car) => c.id == car.id);
    assert multiset(m)[car] == 1;
  }

  lemma TwoHoursAndTwoDays()
    ensures ChargedUnits(Hourly, 120) == 2 && ChargedUnits(Daily, 2880) == 2
  {
    assert HoursBetween(120) == 2;
    assert DaysBetween(2880) == 2;
  }

  /** The window of the morning booking, and that of an hourly request on the same day. */
  lemma MorningWindow(b: Booking, carId: string)
    requires MorningBooking(b, carId)
    ensures Stored(b) && StartOf(b) == Some(739037 * 1440 + 600) && EndOf(b) == Some(739037 * 1440 + 840)
  {
    JuneFirstInstants();
  }

  lemma AfternoonRequest(carId: string, startTime: string, start: int)
    requires IsUuid(carId) && startTime in {"12:00", "14:00"}
    requires start == if startTime == "12:00" then 720 else 840
    ensures var req := HourlyRequest(carId, startTime, "16:00");
      WellShaped(req) && Storable(req) && KindOf(req.booking_type) == Hourly &&
      RequestStart(req) == Some(739037 * 1440 + start) && RequestEnd(req) == Some(739037 * 1440 + 960)
  {
    JuneFirstInstants();
  }

  /** The only row a one-row table can offer as a candidate must clash for a conflict. */
  lemma OneRowConflict(b: Booking, req: BookingRequest, failed: bool)
    ensures HasConflict(Candidates([b], req, failed), req) ==> ClashesWith(req, b)
  {
    if HasConflict(Candidates([b], req, failed), req) {
      ConflictIsAClash([b], req, failed);
    }
  }

  lemma BackToBackIsClear(car: Car, b: Booking, req: BookingRequest)
    requires IsUuid(car.id) && MorningBooking(b, car.id)
    requires req == HourlyRequest(car.id, "14:00", "16:00")
    ensures WellShaped(req) && Storable(req) && KindOf(req.booking_type) == Hourly
    ensures RequestEnd(req).value - RequestStart(req).value == 120
    ensures !HasConflict(Candidates([b], req, false), req)
  {
    MorningWindow(b, car.id);
    AfternoonRequest(car.id, "14:00", 840);
    ClashOnInstants(req, b);
    OneRowConflict(b, req, false);
  }

  /** A request that starts exactly when the existing booking ends is admitted, billing two hours. */
  lemma BackToBackIsAdmitted(caller: Caller, car: Car, b: Booking, req: BookingRequest, id: string, now: int)
    requires IsUuid(car.id) && car.available && MorningBooking(b, car.id)
    requires req == HourlyRequest(car.id, "14:00", "16:00")
    ensures var r := Admission(Some(caller), req, [car], [b], false, id, now);
      r.Created? && r.booking.total_hours == Some(2) && r.booking.total_days == None &&
      r.booking.total_price == 2.0 * car.hourly_price
  {
    BackToBackIsClear(car, b, req);
    OnlyCarIsFound(car);
    AdmittedWhenClear(caller, req, [car], [b], false, id, now, car);
    TwoHoursAndTwoDays();
  }

  /** A request from 12:00 to 16:00 over the same booking is refused as already booked. */
  lemma OverlappingRequestIsRefused(caller: Caller, car: Car, b: Booking, req: BookingRequest, id: string, now: int)
    requires IsUuid(car.id) && car.available && MorningBooking(b, car.id)
    requires req == HourlyRequest(car.id, "12:00", "16:00")
    ensures Admission(Some(caller), req, [car], [b], false, id, now) == AlreadyBooked
  {
    MorningWindow(b, car.id);
    AfternoonRequest(car.id, "12:00", 720);
    OnlyCarIsFound(car);
    OverlapIsCaught(req, [b], b);
    RefusedWhenClashing(caller, req, [car], [b], false, id, now);
  }

  lemma NinetyNine()
    ensures TimeShape("99:00") && !ValidTime("99:00")
  {
    assert TimeShape("99:00");
    ClockFields("99:00");
  }

  /**
   * An invalid requested start does not let a request through: from "99:00"
   * to 12:00 beside the morning booking, the end clause of the three-way
   * test still fires, so the request is refused as already booked.
   */
  lemma InvalidStartStillClashes(caller: Caller, car: Car, b: Booking, req: BookingRequest, id: string, now: int)
    requires IsUuid(car.id) && car.available && MorningBooking(b, car.id)
    requires req == HourlyRequest(car.id, "99:00", "12:00")
    ensures RequestStart(req).None?
    ensures Admission(Some(caller), req, [car], [b], false, id, now) == AlreadyBooked
  {
    NinetyNine();
    MorningWindow(b, car.id);
    JuneFirstInstants();
    assert RequestEnd(req) == Some(739037 * 1440 + 720);
    ClashWithInvalidDate(req, b);
    JuneFirst();
    LexLeReflexive("2024-06-01");
    var candidates := Candidates([b], req, false);
    assert b in candidates;
    var k :| 0 <= k < |candidates| && candidates[k] == b;
    assert ClashesWith(req, candidates[k]);
    OnlyCarIsFound(car);
    RefusedWhenClashing(caller, req, [car], [b], false, id, now);
  }

  /** Two days at a daily rate of 50 cost 100. */
  lemma DailyPricingExample(caller: Caller, car: Car, id: string, now: int)
    requires IsUuid(car.id) && car.available && car.daily_price == 50.0
    ensures var r := Admission(Some(caller),
        BookingRequest(car.id, "2024-06-01", "2024-06-03", "10:00", "10:00", "daily", None), [car], [], false, id, now);
      r.Created? && r.booking.total_days == Some(2) && r.booking.total_hours == None && r.booking.total_price == 100.0
  {
    var req := BookingRequest(car.id, "2024-06-01", "2024-06-03", "10:00", "10:00", "daily", None);
    assert req.start_date == "2024-06-01" && req.end_date == "2024-06-03";
    assert req.start_time == "10:00" && req.end_time == "10:00";
    JuneFirstInstants();
    OnlyCarIsFound(car);
    assert RequestEnd(req).value - RequestStart(req).value == 2880;
    assert !HasConflict(Candidates([], req, false), req);
    AdmittedWhenClear(caller, req, [car], [], false, id, now, car);
    TwoHoursAndTwoDays();
  }

  // ---- GET /api/bookings ---------------------------------------------------

  /**
   * The `user_id`, `car_id` and `status` query parameters. An absent
   * parameter and an empty one both leave the query unfiltered.
   */
  datatype BookingParams = BookingParams(user_id: Option<string>, car_id: Option<string>, status: Option<string>)

  function CreatedAt(b: Booking): int { b.created_at }

  /**
   * Which rows a signed-in caller may see: their own unless they are an
   * admin, an admin optionally narrowed to one user, then narrowed by car
   * and by status.
   */
  predicate Visible(caller: Caller, params: BookingParams, b: Booking) {
    (if caller.role == AdminRole then (Given(params.user_id) ==> b.user_id == params.user_id.value)
     else b.user_id == caller.id) &&
    (Given(params.car_id) ==> b.car_id == params.car_id.value) &&
    (Given(params.status) ==> StatusName(b.status) == params.status.value)
  }

  datatype ListOutcome = ListUnauthorized | Listed(rows: seq<Booking>)

  /**
   * GET /api/bookings: the query built filter by filter, newest first. Each
   * row keeps its number of copies if visible and is dropped otherwise.
   */
  function ListBookings(caller: Option<Caller>, params: BookingParams, rows: seq<Booking>): (r: ListOutcome)
    ensures r.ListUnauthorized? <==> caller.None?
    ensures r.Listed? ==> Rows.Descending(r.rows, CreatedAt)
    ensures r.Listed? ==> forall b :: multiset(r.rows)[b] == if Visible(caller.value, params, b) then multiset(rows)[b] else 0
  {
    if caller.None? then ListUnauthorized
    else
      var user := caller.value;
      var q := if !IsAdmin(caller) then Rows.Filter(rows, (b: Booking) => b.user_id == user.id)
               else if Given(params.user_id) then Rows.Filter(rows, (b: Booking) => b.user_id == params.user_id.value)
               else rows;
      var q := if Given(params.car_id) then Rows.Filter(q, (b: Booking) => b.car_id == params.car_id.value) else q;
      var q := if Given(params.status) then Rows.Filter(q, (b: Booking) => StatusName(b.status) == params.status.value) else q;
      Listed(Rows.NewestFirst(q, CreatedAt))
  }

  /** A caller who is not an admin sees only their own rows, whatever `user_id` asks for. */
  lemma NonAdminSeesOnlyOwnRows(caller: Caller, params: BookingParams, rows: seq<Booking>)
    requires caller.role != AdminRole
    ensures var r := ListBookings(Some(caller), params, rows);
      r.Listed? && forall b :: b in r.rows ==> b in rows && b.user_id == caller.id
    ensures ListBookings(Some(caller), params, rows) == ListBookings(Some(caller), params.(user_id := None), rows)
  {
    var r := ListBookings(Some(caller), params, rows);
    forall b | b in r.rows ensures b in rows && b.user_id == caller.id {
      assert multiset(r.rows)[b] > 0;
    }
  }

  /** An admin who gives no parameter sees every row. */
  lemma AdminSeesEverything(caller: Caller, rows: seq<Booking>)
    requires caller.role == AdminRole
    ensures var r := ListBookings(Some(caller), BookingParams(None, None, None), rows);
      r.Listed? && multiset(r.rows) == multiset(rows)
  {
    var r := ListBookings(Some(caller), BookingParams(None, None, None), rows);
    assert forall b :: multiset(r.rows)[b] == multiset(rows)[b];
  }
}
