/**
 * GET /api/tracking: which GPS samples a caller may read, and how a
 * non-admin's query is narrowed to one of their bookings; POST
 * /api/tracking: the range checks and the car/booking match a new sample
 * must pass before it is appended to the log.
 */
module Tracking {
  import opened Wrappers
  import opened Text
  import opened Auth
  import opened Records
  import Rows

  // ---- Reading samples -----------------------------------------------------

  /** The `booking_id`, `car_id` and `limit` query parameters; an empty id counts as absent. */
  datatype TrackingParams = TrackingParams(booking_id: Option<string>, car_id: Option<string>, limit: Option<nat>)

  /** The row cap: the `limit` parameter, 100 when it is absent. */
  function RowCap(params: TrackingParams): nat {
    params.limit.GetOr(100)
  }

  function Timestamp(s: Sample): int { s.timestamp }

  /** `bookings.eq('id', bookingId).single()`: the booking, when exactly one row has that id. */
  function BookingById(bookings: seq<Booking>, id: string): (r: Option<Booking>)
    ensures r.Some? ==> r.value in bookings && r.value.id == id
    ensures BookingIdsUnique(bookings) ==> (r.Some? <==> exists b :: b in bookings && b.id == id)
  {
    var p := (b: Booking) => b.id == id;
    Rows.UniqueMatch(bookings, p);
    Rows.Single(Rows.Filter(bookings, p))
  }

  /** The statuses under which a renter may follow the car: confirmed and active (not pending). */
  predicate Holds(s: BookingStatus) {
    s == Confirmed || s == Active
  }

  /**
   * `.eq('car_id', …).eq('user_id', …).in('status', ['confirmed', 'active']).limit(1).single()`:
   * the first booking of this user on this car that currently holds it.
   */
  function HeldBooking(bookings: seq<Booking>, carId: string, userId: string): (r: Option<Booking>)
    ensures r.Some? ==> r.value in bookings && r.value.car_id == carId && r.value.user_id == userId && Holds(r.value.status)
    ensures r.None? <==> forall b :: b in bookings ==> !(b.car_id == carId && b.user_id == userId && Holds(b.status))
  {
    Rows.First(Rows.Filter(bookings, (b: Booking) => b.car_id == carId && b.user_id == userId && Holds(b.status)))
  }

  datatype ReadOutcome = ReadUnauthorized | Forbidden | Samples(rows: seq<Sample>)

  /** The booking a non-admin's car query is narrowed to, when they named a car and no booking. */
  function Narrowing(caller: Caller, params: TrackingParams, bookings: seq<Booking>): Option<Booking> {
    if caller.role != AdminRole && !Given(params.booking_id) && Given(params.car_id) then
      HeldBooking(bookings, params.car_id.value, caller.id)
    else None
  }

  /** A sample the final query keeps: the named booking, the named car, and the narrowing booking. */
  predicate Selected(s: Sample, params: TrackingParams, narrowTo: Option<Booking>) {
    (Given(params.booking_id) ==> s.booking_id == params.booking_id) &&
    (Given(params.car_id) ==> s.car_id == params.car_id.value) &&
    (narrowTo.Some? ==> s.booking_id == Some(narrowTo.value.id))
  }

  /** The non-admin checks of GET /api/tracking: is this caller turned away? */
  predicate Refused(caller: Caller, params: TrackingParams, bookings: seq<Booking>) {
    caller.role != AdminRole &&
    if Given(params.booking_id) then
      var b := BookingById(bookings, params.booking_id.value);
      b.None? || b.value.user_id != caller.id
    else
      Given(params.car_id) && HeldBooking(bookings, params.car_id.value, caller.id).None?
  }

  /** The query's `.eq` filters on the named booking and the named car. */
  function ByBookingAndCar(samples: seq<Sample>, params: TrackingParams): (r: seq<Sample>)
    ensures forall s :: s in r <==> s in samples && Selected(s, params, None)
    ensures forall s :: multiset(r)[s] == if Selected(s, params, None) then multiset(samples)[s] else 0
  {
    var q := if Given(params.booking_id) then Rows.Filter(samples, (s: Sample) => s.booking_id == params.booking_id) else samples;
    if Given(params.car_id) then Rows.Filter(q, (s: Sample) => s.car_id == params.car_id.value) else q
  }

  /**
   * `rows` is what `.order('timestamp', { ascending: false }).limit(cap)`
   * returns from `sel`: newest first, drawn from `sel`, as many rows as the
   * cap allows, and no row left out is newer than a row kept.
   */
  predicate NewestPage(rows: seq<Sample>, sel: seq<Sample>, cap: nat) {
    Rows.Descending(rows, Timestamp) && multiset(rows) <= multiset(sel) &&
    |rows| == (if cap < |sel| then cap else |sel|) &&
    forall x, y :: x in rows && y in multiset(sel) - multiset(rows) ==> Timestamp(y) <= Timestamp(x)
  }

  /** `.order('timestamp', { ascending: false }).limit(cap)`: the newest `cap` of the rows. */
  function Page(q: seq<Sample>, cap: nat): (r: seq<Sample>)
    ensures NewestPage(r, q, cap)
    ensures |q| <= cap ==> multiset(r) == multiset(q)
  {
    var sorted := Rows.NewestFirst(q, Timestamp);
    NewestCut(q, sorted, cap);
    Rows.Take(sorted, cap)
  }

  /** The first `cap` rows of the rows sorted newest first are a newest page of them. */
  lemma NewestCut(q: seq<Sample>, sorted: seq<Sample>, cap: nat)
    requires Rows.Descending(sorted, Timestamp) && multiset(sorted) == multiset(q)
    ensures NewestPage(Rows.Take(sorted, cap), q, cap)
    ensures |q| <= cap ==> multiset(Rows.Take(sorted, cap)) == multiset(q)
  {
    var r := Rows.Take(sorted, cap);
    assert |sorted| == |q| by {
      assert |multiset(sorted)| == |multiset(q)|;
    }
    assert r == sorted[..|r|];
    assert sorted == r + sorted[|r|..];
    assert multiset(sorted) == multiset(r) + multiset(sorted[|r|..]);
    assert Rows.Descending(r, Timestamp) by {
      forall i, j | 0 <= i < j < |r| ensures Timestamp(r[i]) >= Timestamp(r[j]) {
        assert r[i] == sorted[i] && r[j] == sorted[j];
      }
    }
    Rows.CutDominates(sorted, |r|, Timestamp);
  }

  /** The stored samples the query selects, before ordering and the cap. */
  function Selection(samples: seq<Sample>, params: TrackingParams, narrowTo: Option<Booking>): (r: seq<Sample>)
    ensures forall s :: multiset(r)[s] == if Selected(s, params, narrowTo) then multiset(samples)[s] else 0
  {
    Rows.Filter(samples, (s: Sample) => Selected(s, params, narrowTo))
  }

  /** A page of rows that are the selection, each as often, is a newest page of the selection. */
  lemma PageOfSelection(q: seq<Sample>, sel: seq<Sample>, cap: nat)
    requires multiset(q) == multiset(sel)
    ensures NewestPage(Page(q, cap), sel, cap)
    ensures |sel| <= cap ==> multiset(Page(q, cap)) == multiset(sel)
    ensures forall s :: s in Page(q, cap) ==> s in sel
  {
    assert |q| == |sel| by {
      assert |multiset(q)| == |multiset(sel)|;
    }
    forall s | s in Page(q, cap) ensures s in sel {
      assert s in multiset(Page(q, cap));
    }
  }

  /** Rows that agree with the selection sample by sample hold it, each as often. */
  lemma SameAsSelection(q: seq<Sample>, samples: seq<Sample>, params: TrackingParams, narrowTo: Option<Booking>)
    requires forall s :: multiset(q)[s] == if Selected(s, params, narrowTo) then multiset(samples)[s] else 0
    ensures multiset(q) == multiset(Selection(samples, params, narrowTo))
  {
    var sel := Selection(samples, params, narrowTo);
    assert forall s :: multiset(q)[s] == multiset(sel)[s];
  }

  /**
   * GET /api/tracking, in the order the handler takes it: the session, the
   * query by booking and car, the non-admin ownership checks, the narrowing
   * to a held booking; the newest samples of the selection, at most the row
   * cap of them, and all of them when they fit.
   */
  function ReadTracking(caller: Option<Caller>, params: TrackingParams, bookings: seq<Booking>,
                        samples: seq<Sample>): (r: ReadOutcome)
    ensures r == ReadUnauthorized <==> caller.None?
    ensures r == Forbidden <==> caller.Some? && Refused(caller.value, params, bookings)
    ensures r.Samples? ==> forall s :: s in r.rows ==>
      s in samples && Selected(s, params, Narrowing(caller.value, params, bookings))
    ensures r.Samples? ==>
      var sel := Selection(samples, params, Narrowing(caller.value, params, bookings));
      NewestPage(r.rows, sel, RowCap(params)) && (|sel| <= RowCap(params) ==> multiset(r.rows) == multiset(sel))
  {
    if caller.None? then ReadUnauthorized
    else
      var user := caller.value;
      var q := ByBookingAndCar(samples, params);
      if user.role != AdminRole && Given(params.booking_id) then
        var b := BookingById(bookings, params.booking_id.value);
        if b.None? || b.value.user_id != user.id then Forbidden
        else
          SameAsSelection(q, samples, params, None);
          PageOfSelection(q, Selection(samples, params, None), RowCap(params));
          Samples(Page(q, RowCap(params)))
      else if user.role != AdminRole && Given(params.car_id) then
        var held := HeldBooking(bookings, params.car_id.value, user.id);
        if held.None? then Forbidden
        else
          var narrowed := Rows.Filter(q, (s: Sample) => s.booking_id == Some(held.value.id));
          SameAsSelection(narrowed, samples, params, held);
          PageOfSelection(narrowed, Selection(samples, params, held), RowCap(params));
          Samples(Page(narrowed, RowCap(params)))
      else
        SameAsSelection(q, samples, params, None);
        PageOfSelection(q, Selection(samples, params, None), RowCap(params));
        Samples(Page(q, RowCap(params)))
  }

  /** The sample is attached to a booking the user holds in the table. */
  predicate OwnSample(s: Sample, bookings: seq<Booking>, userId: string) {
    s.booking_id.Some? && exists b :: b in bookings && b.id == s.booking_id.value && b.user_id == userId
  }

  /**
   * A non-admin who names a booking or a car reads only samples attached to
   * one of their own bookings: the named one, or the held one the query is
   * narrowed to.
   */
  lemma NamedReadsStayOwn(caller: Caller, params: TrackingParams, bookings: seq<Booking>, samples: seq<Sample>)
    requires caller.role != AdminRole && (Given(params.booking_id) || Given(params.car_id))
    ensures var r := ReadTracking(Some(caller), params, bookings, samples);
      r.Samples? ==> forall s :: s in r.rows ==> OwnSample(s, bookings, caller.id)
  {
    var r := ReadTracking(Some(caller), params, bookings, samples);
    if r.Samples? {
      forall s | s in r.rows ensures OwnSample(s, bookings, caller.id) {
        if Given(params.booking_id) {
          var b := BookingById(bookings, params.booking_id.value);
          assert b.Some? && b.value.user_id == caller.id;
          assert s.booking_id == params.booking_id;
        } else {
          var held := Narrowing(caller, params, bookings);
          assert held.Some? && s.booking_id == Some(held.value.id);
        }
      }
    }
  }

  /**
   * A renter who names a booking of theirs is served, and reads every
   * selected sample when the log fits the cap.
   */
  lemma NamedOwnBookingIsRead(caller: Caller, params: TrackingParams, bookings: seq<Booking>,
                              samples: seq<Sample>, b: Booking)
    requires caller.role != AdminRole && BookingIdsUnique(bookings)
    requires b in bookings && b.user_id == caller.id && b.id != "" && params.booking_id == Some(b.id)
    ensures var r := ReadTracking(Some(caller), params, bookings, samples);
      r.Samples? &&
      (|samples| <= RowCap(params) ==> forall s :: s in samples && Selected(s, params, None) ==> s in r.rows)
  {
    var found := BookingById(bookings, b.id);
    var i :| 0 <= i < |bookings| && bookings[i] == found.value;
    var j :| 0 <= j < |bookings| && bookings[j] == b;
    assert i == j;
    CompleteWhenItFits(caller, params, bookings, samples);
  }

  /**
   * A renter who names a car they hold under a confirmed or active booking
   * is served, and reads every sample of the held booking on that car when
   * the log fits the cap.
   */
  lemma HeldCarIsRead(caller: Caller, params: TrackingParams, bookings: seq<Booking>, samples: seq<Sample>, b: Booking)
    requires caller.role != AdminRole && !Given(params.booking_id) && Given(params.car_id)
    requires b in bookings && b.car_id == params.car_id.value && b.user_id == caller.id && Holds(b.status)
    ensures var r := ReadTracking(Some(caller), params, bookings, samples);
      var held := HeldBooking(bookings, params.car_id.value, caller.id);
      r.Samples? && held.Some? &&
      (|samples| <= RowCap(params) ==>
         forall s :: s in samples && s.car_id == params.car_id.value && s.booking_id == Some(held.value.id) ==>
           s in r.rows)
  {
    CompleteWhenItFits(caller, params, bookings, samples);
  }

  /** A read that is served returns every selected sample when the log fits the cap. */
  lemma CompleteWhenItFits(caller: Caller, params: TrackingParams, bookings: seq<Booking>, samples: seq<Sample>)
    ensures var r := ReadTracking(Some(caller), params, bookings, samples);
      r.Samples? && |samples| <= RowCap(params) ==>
      forall s :: s in samples && Selected(s, params, Narrowing(caller, params, bookings)) ==> s in r.rows
  {
    var r := ReadTracking(Some(caller), params, bookings, samples);
    var sel := Selection(samples, params, Narrowing(caller, params, bookings));
    if r.Samples? && |samples| <= RowCap(params) {
      assert multiset(sel) <= multiset(samples);
      assert |sel| <= |samples| by {
        assert |multiset(sel)| <= |multiset(samples)|;
      }
      forall s | s in samples && Selected(s, params, Narrowing(caller, params, bookings)) ensures s in r.rows {
        assert s in multiset(sel);
      }
    }
  }

  /** A pending booking does not let its renter follow the car. */
  lemma PendingDoesNotCount(caller: Caller, carId: string, b: Booking, samples: seq<Sample>, limit: Option<nat>)
    requires caller.role != AdminRole && carId != ""
    requires b.car_id == carId && b.user_id == caller.id && b.status == Pending
    ensures ReadTracking(Some(caller), TrackingParams(None, Some(carId), limit), [b], samples) == Forbidden
  {
    assert HeldBooking([b], carId, caller.id).None?;
  }

  /**
   * An admin, and a non-admin who names neither a booking nor a car, are not
   * restricted: they get the newest samples of the whole log that match
   * nothing but the given filters.
   */
  lemma UnnamedReadsAreUnrestricted(caller: Caller, params: TrackingParams, bookings: seq<Booking>, samples: seq<Sample>)
    requires caller.role == AdminRole || (!Given(params.booking_id) && !Given(params.car_id))
    ensures var r := ReadTracking(Some(caller), params, bookings, samples);
      r.Samples? && multiset(r.rows) <= multiset(samples) &&
      (RowCap(params) >= |samples| ==> forall s :: s in samples && Selected(s, params, None) ==> s in r.rows)
  {
    var r := ReadTracking(Some(caller), params, bookings, samples);
    var sel := Selection(samples, params, None);
    assert Narrowing(caller, params, bookings) == None;
    assert multiset(sel) <= multiset(samples);
    if RowCap(params) >= |samples| {
      assert |sel| <= |samples| by {
        assert |multiset(sel)| <= |multiset(samples)|;
      }
      forall s | s in samples && Selected(s, params, None) ensures s in r.rows {
        assert s in multiset(sel);
      }
    }
  }

  /** A signed-in renter who names neither a booking nor a car. */
  predicate Unscoped(caller: Option<Caller>, params: TrackingParams) {
    caller.Some? && caller.value.role != AdminRole && !Given(params.booking_id) && !Given(params.car_id)
  }

  /** The samples attached to the user's own bookings. */
  function OwnSamples(samples: seq<Sample>, bookings: seq<Booking>, userId: string): (r: seq<Sample>)
    ensures forall s :: multiset(r)[s] == if OwnSample(s, bookings, userId) then multiset(samples)[s] else 0
  {
    Rows.Filter(samples, (s: Sample) => OwnSample(s, bookings, userId))
  }

  /**
   * Intended scoping of GET /api/tracking: the handler as written, except
   * that a non-admin who names neither a booking nor a car reads the newest
   * samples of their own bookings, all of them when they fit the cap.
   */
  function ReadOwnTracking(caller: Option<Caller>, params: TrackingParams, bookings: seq<Booking>,
                           samples: seq<Sample>): (r: ReadOutcome)
    ensures !Unscoped(caller, params) ==> r == ReadTracking(caller, params, bookings, samples)
    ensures Unscoped(caller, params) ==>
      r.Samples? &&
      var own := OwnSamples(samples, bookings, caller.value.id);
      NewestPage(r.rows, own, RowCap(params)) && (|own| <= RowCap(params) ==> multiset(r.rows) == multiset(own))
    ensures r.Samples? && caller.Some? && caller.value.role != AdminRole ==>
      forall s :: s in r.rows ==> OwnSample(s, bookings, caller.value.id)
  {
    if Unscoped(caller, params) then
      var own := OwnSamples(samples, bookings, caller.value.id);
      PageOfSelection(own, own, RowCap(params));
      Samples(Page(own, RowCap(params)))
    else
      var r := ReadTracking(caller, params, bookings, samples);
      if caller.Some? && caller.value.role != AdminRole then
        NamedReadsStayOwn(caller.value, params, bookings, samples);
        r
      else r
  }

  /**
   * As written, a signed-in renter who names nothing reads the sample of a
   * booking held by another renter, in a log consistent with the tables;
   * the intended scoping returns nothing.
   */
  lemma UnscopedReadLeaks(caller: Caller, car: Car, b: Booking, other: Sample)
    requires caller.role != AdminRole && b.user_id != caller.id
    requires car.id == b.car_id && other.car_id == b.car_id && other.booking_id == Some(b.id)
    requires -90.0 <= other.latitude <= 90.0 && -180.0 <= other.longitude <= 180.0
    ensures LogConsistent([other], [car], [b]) && !OwnSample(other, [b], caller.id)
    ensures ReadTracking(Some(caller), TrackingParams(None, None, None), [b], [other]) == Samples([other])
    ensures ReadOwnTracking(Some(caller), TrackingParams(None, None, None), [b], [other]) == Samples([])
  {
    assert SampleConsistent(other, [car], [b]);
    assert !OwnSample(other, [b], caller.id);
    PageOfOne(other, 100);
    NoneOwned([other], [b], caller.id, 100);
  }

  lemma PageOfOne(x: Sample, cap: nat)
    requires cap >= 1
    ensures Page([x], cap) == [x]
  {
    var page := Page([x], cap);
    assert |page| == 1 && page[0] in multiset([x]);
  }

  /** When none of the samples is the user's own, the intended read returns no rows. */
  lemma NoneOwned(samples: seq<Sample>, bookings: seq<Booking>, userId: string, cap: nat)
    requires forall i :: 0 <= i < |samples| ==> !OwnSample(samples[i], bookings, userId)
    ensures Page(OwnSamples(samples, bookings, userId), cap) == []
  {
    var own := OwnSamples(samples, bookings, userId);
    assert multiset(own) == multiset{} by {
      forall s ensures multiset(own)[s] == 0 {
        if s in samples {
          var i :| 0 <= i < |samples| && samples[i] == s;
        }
      }
    }
  }

  // ---- Recording samples ---------------------------------------------------

  datatype TrackingInput = TrackingInput(
    booking_id: Option<string>,
    car_id: string,
    latitude: real,
    longitude: real,
    speed: Option<real>,
    heading: Option<real>)

  /** The sample schema: uuids for the car and any booking, coordinates in range. */
  predicate ValidInput(t: TrackingInput) {
    (t.booking_id.Some? ==> IsUuid(t.booking_id.value)) && IsUuid(t.car_id) &&
    -90.0 <= t.latitude <= 90.0 && -180.0 <= t.longitude <= 180.0
  }

  datatype RecordOutcome =
    | RecordUnauthorized  // 401
    | RecordInvalid       // 400
    | CarMissing          // 404
    | BookingMismatch     // 404: no single booking with this id on this car
    | Recorded(sample: Sample)  // 201

  function RecordStatus(o: RecordOutcome): int {
    match o
    case RecordUnauthorized => 401
    case RecordInvalid => 400
    case Recorded(_) => 201
    case _ => 404
  }

  /** The `.eq('id', …).eq('car_id', …).single()` lookup of the named booking on the named car. */
  function BookingOnCar(bookings: seq<Booking>, id: string, carId: string): (r: Option<Booking>)
    ensures r.Some? ==> r.value in bookings && r.value.id == id && r.value.car_id == carId
    ensures BookingIdsUnique(bookings) ==>
      (r.Some? <==> exists b :: b in bookings && b.id == id && b.car_id == carId)
  {
    var p := (b: Booking) => b.id == id && b.car_id == carId;
    Rows.UniqueMatch(bookings, p);
    Rows.Single(Rows.Filter(bookings, p))
  }

  /**
   * POST /api/tracking: the session, the schema, the car, the booking match;
   * the input is stored as given under the id and timestamp the table assigns.
   */
  function RecordSample(caller: Option<Caller>, t: TrackingInput, cars: seq<Car>, bookings: seq<Booking>,
                        id: string, now: int): (r: RecordOutcome)
    ensures r == RecordUnauthorized <==> caller.None?
    ensures r == RecordInvalid <==> caller.Some? && !ValidInput(t)
    ensures r == CarMissing <==> caller.Some? && ValidInput(t) && FindCar(cars, t.car_id).None?
    ensures r == BookingMismatch <==>
      caller.Some? && ValidInput(t) && FindCar(cars, t.car_id).Some? &&
      t.booking_id.Some? && BookingOnCar(bookings, t.booking_id.value, t.car_id).None?
    ensures r.Recorded? ==>
      -90.0 <= r.sample.latitude <= 90.0 && -180.0 <= r.sample.longitude <= 180.0 &&
      r.sample == Sample(id, t.booking_id, t.car_id, t.latitude, t.longitude, t.speed, t.heading, now)
  {
    if caller.None? then RecordUnauthorized
    else if !ValidInput(t) then RecordInvalid
    else if FindCar(cars, t.car_id).None? then CarMissing
    else if t.booking_id.Some? && BookingOnCar(bookings, t.booking_id.value, t.car_id).None? then BookingMismatch
    else Recorded(Sample(id, t.booking_id, t.car_id, t.latitude, t.longitude, t.speed, t.heading, now))
  }

  /** Every sample of the log is on a known car, in range, and on a booking of that car if it names one. */
  predicate LogConsistent(log: seq<Sample>, cars: seq<Car>, bookings: seq<Booking>) {
    forall i :: 0 <= i < |log| ==> SampleConsistent(log[i], cars, bookings)
  }

  predicate SampleConsistent(s: Sample, cars: seq<Car>, bookings: seq<Booking>) {
    (exists c :: c in cars && c.id == s.car_id) &&
    -90.0 <= s.latitude <= 90.0 && -180.0 <= s.longitude <= 180.0 &&
    (s.booking_id.Some? ==> exists b :: b in bookings && b.id == s.booking_id.value && b.car_id == s.car_id)
  }

  /** Appending what POST records keeps the log consistent with the cars and bookings it was checked against. */
  lemma RecordingKeepsLogConsistent(caller: Option<Caller>, t: TrackingInput, cars: seq<Car>,
                                    bookings: seq<Booking>, log: seq<Sample>, id: string, now: int)
    requires LogConsistent(log, cars, bookings)
    ensures var r := RecordSample(caller, t, cars, bookings, id, now);
      r.Recorded? ==> LogConsistent(log + [r.sample], cars, bookings)
  {
    var r := RecordSample(caller, t, cars, bookings, id, now);
    if r.Recorded? {
      var car := FindCar(cars, t.car_id).value;
      assert car in Rows.Filter(cars, (c: Car) => c.id == t.car_id);
      if t.booking_id.Some? {
        var b := BookingOnCar(bookings, t.booking_id.value, t.car_id).value;
        assert b in bookings && b.id == r.sample.booking_id.value && b.car_id == r.sample.car_id;
      }
      assert SampleConsistent(r.sample, cars, bookings);
      var all := log + [r.sample];
      forall i | 0 <= i < |all| ensures SampleConsistent(all[i], cars, bookings) {
        if i < |log| { assert all[i] == log[i]; }
      }
    }
  }

  /** Coordinates outside the globe are refused with 400, whatever else the input holds. */
  lemma OffGlobeIsInvalid(caller: Caller, t: TrackingInput, cars: seq<Car>, bookings: seq<Booking>, id: string, now: int)
    requires !(-90.0 <= t.latitude <= 90.0) || !(-180.0 <= t.longitude <= 180.0)
    ensures RecordStatus(RecordSample(Some(caller), t, cars, bookings, id, now)) == 400
  {
  }
}
