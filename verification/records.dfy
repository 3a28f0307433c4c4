/** Row shapes of the `bookings`, `cars` and `tracking` tables. */
module Records {
  import opened Wrappers
  import Rows

  datatype Location = Location(lat: real, lng: real)

  datatype BookingType = Hourly | Daily

  datatype BookingStatus = Pending | Confirmed | Active | Completed | Cancelled

  datatype PaymentStatus = PaymentPending | Paid | PaymentFailed | Refunded

  /** The text stored in the `status` column. */
  function StatusName(s: BookingStatus): string {
    match s
    case Pending => "pending"
    case Confirmed => "confirmed"
    case Active => "active"
    case Completed => "completed"
    case Cancelled => "cancelled"
  }

  /** Instants such as `created_at` and `timestamp` are kept as numbers that order like time. */
  datatype Booking = Booking(
    id: string,
    user_id: string,
    car_id: string,
    start_date: string,
    end_date: string,
    start_time: string,
    end_time: string,
    booking_type: BookingType,
    total_hours: Option<int>,
    total_days: Option<int>,
    total_price: real,
    status: BookingStatus,
    payment_status: PaymentStatus,
    pickup_location: Option<Location>,
    created_at: int)

  datatype Car = Car(
    id: string,
    make: string,
    model: string,
    year: int,
    color: string,
    license_plate: string,
    car_type: string,
    seats: int,
    transmission: string,
    fuel_type: string,
    mileage: int,
    hourly_price: real,
    daily_price: real,
    description: Option<string>,
    available: bool,
    created_at: int)

  /** One GPS sample of the append-only `tracking` log. */
  datatype Sample = Sample(
    id: string,
    booking_id: Option<string>,
    car_id: string,
    latitude: real,
    longitude: real,
    speed: Option<real>,
    heading: Option<real>,
    timestamp: int)

  /** `id` is the primary key of `cars`: no two rows share it. */
  predicate CarIdsUnique(cars: seq<Car>) {
    forall i, j :: 0 <= i < j < |cars| ==> cars[i].id != cars[j].id
  }

  /** `id` is the primary key of `bookings`. */
  predicate BookingIdsUnique(bookings: seq<Booking>) {
    forall i, j :: 0 <= i < j < |bookings| ==> bookings[i].id != bookings[j].id
  }

  /**
   * `from('cars').eq('id', id).single()`: a found car has the id, and under
   * the primary key the car with that id is found whenever it is stored.
   */
  function FindCar(cars: seq<Car>, id: string): (r: Option<Car>)
    ensures r.Some? ==> r.value in cars && r.value.id == id
    ensures CarIdsUnique(cars) ==> (r.Some? <==> exists c :: c in cars && c.id == id)
  {
    var p := (c: Car) => c.id == id;
    Rows.UniqueMatch(cars, p);
    Rows.Single(Rows.Filter(cars, p))
  }
}
