/**
 * GET /api/cars: the catalogue filter, a conjunction of per-field tests on
 * each car; POST /api/cars: the admin gate and the car schema a new car must
 * satisfy before it is inserted.
 */
module Cars {
  import opened Wrappers
  import opened Text
  import opened Auth
  import opened Records
  import Rows

  // ---- Listing -------------------------------------------------------------

  /**
   * The catalogue query parameters. For the string parameters an absent
   * value and an empty one both leave the query unfiltered; the price bounds
   * are the numbers the non-empty `minPrice`/`maxPrice` texts parse to.
   */
  datatype CarParams = CarParams(
    car_type: Option<string>,
    transmission: Option<string>,
    fuel_type: Option<string>,
    available: Option<string>,
    minPrice: Option<real>,
    maxPrice: Option<real>,
    search: Option<string>,
    booking_type: Option<string>)

  function CreatedAt(c: Car): int { c.created_at }

  /** The bounds apply to the hourly price for an hourly search and to the daily price otherwise. */
  function BoundedPrice(params: CarParams, c: Car): (price: real)
    ensures params.booking_type == Some("hourly") ==> price == c.hourly_price
    ensures params.booking_type != Some("hourly") ==> price == c.daily_price
  {
    var bookingType := if Given(params.booking_type) then params.booking_type.value else "daily";
    if bookingType == "hourly" then c.hourly_price else c.daily_price
  }

  /** The search term occurs, ignoring case, in the make, the model or the description. */
  predicate MatchesSearch(c: Car, term: string) {
    ContainsIgnoringCase(c.make, term) || ContainsIgnoringCase(c.model, term) ||
    (c.description.Some? && ContainsIgnoringCase(c.description.value, term))
  }

  /** The exact-match filters: type, transmission, fuel and availability. */
  predicate KeepsFields(params: CarParams, c: Car) {
    (Given(params.car_type) ==> c.car_type == params.car_type.value) &&
    (Given(params.transmission) ==> c.transmission == params.transmission.value) &&
    (Given(params.fuel_type) ==> c.fuel_type == params.fuel_type.value) &&
    (params.available.Some? ==> c.available == (params.available.value == "true"))
  }

  /** The inclusive price bounds and the search. */
  predicate KeepsPriceAndSearch(params: CarParams, c: Car) {
    (params.minPrice.Some? ==> BoundedPrice(params, c) >= params.minPrice.value) &&
    (params.maxPrice.Some? ==> BoundedPrice(params, c) <= params.maxPrice.value) &&
    (Given(params.search) ==> MatchesSearch(c, params.search.value))
  }

  /** Every filter the parameters ask for, as one conjunction over a single car. */
  predicate Keeps(params: CarParams, c: Car) {
    KeepsFields(params, c) && KeepsPriceAndSearch(params, c)
  }

  /** One optional `.eq`/`.gte`/`.lte`/`.or` step of the query: filter when the parameter is present. */
  function Step(q: seq<Car>, present: bool, p: Car -> bool): (r: seq<Car>)
    ensures forall c :: multiset(r)[c] == if present && !p(c) then 0 else multiset(q)[c]
  {
    if present then Rows.Filter(q, p) else q
  }

  function FieldSteps(params: CarParams, cars: seq<Car>): (r: seq<Car>)
    ensures forall c :: multiset(r)[c] == if KeepsFields(params, c) then multiset(cars)[c] else 0
  {
    var q := Step(cars, Given(params.car_type), (c: Car) => c.car_type == params.car_type.GetOr(""));
    var q := Step(q, Given(params.transmission), (c: Car) => c.transmission == params.transmission.GetOr(""));
    var q := Step(q, Given(params.fuel_type), (c: Car) => c.fuel_type == params.fuel_type.GetOr(""));
    Step(q, params.available.Some?, (c: Car) => c.available == (params.available == Some("true")))
  }

  function PriceAndSearchSteps(params: CarParams, cars: seq<Car>): (r: seq<Car>)
    ensures forall c :: multiset(r)[c] == if KeepsPriceAndSearch(params, c) then multiset(cars)[c] else 0
  {
    var q := Step(cars, params.minPrice.Some?, (c: Car) => BoundedPrice(params, c) >= params.minPrice.GetOr(0.0));
    var q := Step(q, params.maxPrice.Some?, (c: Car) => BoundedPrice(params, c) <= params.maxPrice.GetOr(0.0));
    Step(q, Given(params.search), (c: Car) => MatchesSearch(c, params.search.GetOr("")))
  }

  /**
   * GET /api/cars: the query threaded through each optional filter, newest
   * first. A car is listed, as often as it is stored, exactly when it passes
   * every filter that was asked for.
   */
  function ListCars(params: CarParams, cars: seq<Car>): (r: seq<Car>)
    ensures Rows.Descending(r, CreatedAt)
    ensures forall c :: multiset(r)[c] == if Keeps(params, c) then multiset(cars)[c] else 0
  {
    Rows.NewestFirst(PriceAndSearchSteps(params, FieldSteps(params, cars)), CreatedAt)
  }

  /** A car priced exactly at both bounds passes them: the bounds are inclusive. */
  lemma BoundsAreInclusive(params: CarParams, c: Car)
    requires params.minPrice == Some(BoundedPrice(params, c)) && params.maxPrice == Some(BoundedPrice(params, c))
    requires !Given(params.car_type) && !Given(params.transmission) && !Given(params.fuel_type)
    requires params.available.None? && !Given(params.search)
    ensures c in ListCars(params, [c])
  {
    assert multiset(ListCars(params, [c]))[c] == 1;
  }

  /** Unless the search is hourly, the hourly price plays no part in the listing. */
  lemma DailyBoundsIgnoreHourlyPrice(params: CarParams, c: Car, hourly: real)
    requires params.booking_type != Some("hourly")
    ensures Keeps(params, c) <==> Keeps(params, c.(hourly_price := hourly))
  {
  }

  /** Any `available` text other than `true` lists only the unavailable cars. */
  lemma AvailableMeansTrueText(params: CarParams, c: Car)
    requires params.available.Some? && params.available.value != "true" && c.available
    ensures c !in ListCars(params, [c])
  {
    assert multiset(ListCars(params, [c]))[c] == 0;
  }

  // ---- Search ignores case -------------------------------------------------

  lemma LowerOfUpper(c: char)
    ensures LowerChar(UpperChar(c)) == LowerChar(c)
  {
  }

  lemma FoldingForgetsCase(t: string)
    ensures Lower(Upper(t)) == Lower(t)
  {
    forall i | 0 <= i < |t| ensures Lower(Upper(t))[i] == Lower(t)[i] {
      LowerOfUpper(t[i]);
    }
  }

  /** Searching for a term in capitals finds exactly the cars the term itself finds. */
  lemma SearchIgnoresCase(c: Car, term: string)
    ensures MatchesSearch(c, Upper(term)) <==> MatchesSearch(c, term)
  {
    FoldingForgetsCase(term);
  }

  /** A term that occurs verbatim also occurs once both sides are folded. */
  lemma VerbatimIsFound(s: string, t: string)
    requires Contains(s, t)
    ensures ContainsIgnoringCase(s, t)
  {
    var i :| 0 <= i <= |s| && OccursAt(s, t, i);
    assert Lower(s)[i..i + |t|] == Lower(t) by {
      forall k | 0 <= k < |t| ensures Lower(s)[i..i + |t|][k] == Lower(t)[k] {
        assert s[i..i + |t|][k] == t[k];
      }
    }
    assert OccursAt(Lower(s), Lower(t), i);
  }

  /** A car whose make contains the term verbatim is kept by the search filter alone. */
  lemma MakeMatchIsListed(params: CarParams, c: Car)
    requires Given(params.search) && Contains(c.make, params.search.value)
    requires !Given(params.car_type) && !Given(params.transmission) && !Given(params.fuel_type)
    requires params.available.None? && params.minPrice.None? && params.maxPrice.None?
    ensures c in ListCars(params, [c])
  {
    VerbatimIsFound(c.make, params.search.value);
    assert multiset(ListCars(params, [c]))[c] == 1;
  }

  // ---- Creating a car ------------------------------------------------------

  /**
   * The body of POST /api/cars. Numbers are JSON numbers, so the integer
   * fields are checked to be whole.
   */
  datatype CarInput = CarInput(
    make: string,
    model: string,
    year: real,
    color: string,
    license_plate: string,
    car_type: string,
    seats: real,
    transmission: string,
    fuel_type: string,
    mileage: real,
    hourly_price: real,
    daily_price: real,
    description: Option<string>,
    available: Option<bool>,
    location: Option<Location>)

  predicate IsWhole(x: real) {
    x.Floor as real == x
  }

  const CarTypes: set<string> := {"sedan", "suv", "hatchback", "coupe", "convertible", "truck", "van"}
  const Transmissions: set<string> := {"automatic", "manual"}
  const FuelTypes: set<string> := {"petrol", "diesel", "electric", "hybrid"}

  /**
   * The car schema. `loadYear` is the calendar year when the schema was
   * built: the newest model year accepted is the one after it.
   */
  predicate ValidCar(input: CarInput, loadYear: int) {
    |input.make| >= 1 && |input.model| >= 1 && |input.color| >= 1 && |input.license_plate| >= 1 &&
    IsWhole(input.year) && 1900.0 <= input.year <= (loadYear + 1) as real &&
    input.car_type in CarTypes &&
    IsWhole(input.seats) && 1.0 <= input.seats <= 50.0 &&
    input.transmission in Transmissions &&
    input.fuel_type in FuelTypes &&
    IsWhole(input.mileage) && input.mileage >= 0.0 &&
    input.hourly_price > 0.0 && input.daily_price > 0.0
  }

  datatype CreateOutcome =
    | CreateUnauthorized      // 401
    | CreateForbidden         // 403
    | CreateInvalid           // 400
    | CarCreated(data: CarInput)  // 201: the insert receives the parsed body

  /** POST /api/cars: the admin gate comes before the body is even parsed. */
  function CreateCar(caller: Option<Caller>, input: CarInput, loadYear: int): (r: CreateOutcome)
    ensures r == CreateUnauthorized <==> caller.None?
    ensures r == CreateForbidden <==> caller.Some? && !IsAdmin(caller)
    ensures r == CreateInvalid <==> IsAdmin(caller) && !ValidCar(input, loadYear)
    ensures r.CarCreated? <==> IsAdmin(caller) && ValidCar(input, loadYear)
    ensures r.CarCreated? ==> r.data == input
  {
    if caller.None? then CreateUnauthorized
    else if caller.value.role != AdminRole then CreateForbidden
    else if !ValidCar(input, loadYear) then CreateInvalid
    else CarCreated(input)
  }

  /** Whatever a non-admin sends, nothing is inserted and the body is never judged. */
  lemma OnlyAdminsCreate(caller: Option<Caller>, a: CarInput, b: CarInput, loadYear: int)
    requires !IsAdmin(caller)
    ensures CreateCar(caller, a, loadYear) == CreateCar(caller, b, loadYear)
    ensures !CreateCar(caller, a, loadYear).CarCreated?
  {
  }

  /** A created car's whole-number fields are in range and its prices positive. */
  lemma CreatedCarIsSane(caller: Option<Caller>, input: CarInput, loadYear: int)
    requires CreateCar(caller, input, loadYear).CarCreated?
    ensures var y := input.year.Floor; 1900 <= y <= loadYear + 1 && y as real == input.year
    ensures var n := input.seats.Floor; 1 <= n <= 50 && n as real == input.seats
    ensures input.mileage.Floor >= 0 && input.hourly_price > 0.0 && input.daily_price > 0.0
  {
  }
}
