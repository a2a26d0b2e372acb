/**
 * The scheduling domain's view of airfields, airships and flights, and the
 * events that announce them. A flight connects two different airfields and
 * departs strictly before it arrives.
 */
module SchedulingFlights {
  import opened Wrappers
  import opened Chrono
  import opened MachineInts

  type AirfieldId = string
  type AirshipId = string
  type FlightId = string

  /** `Airfield`: equal, and hashed, by id; the location is a geohash kept as its text. */
  datatype Airfield = Airfield(id: AirfieldId, name: string, location: string)

  /** `Airship`: its number of seats is a u8. */
  datatype Airship = Airship(id: AirshipId, name: string, model: string, numberOfSeats: U8)

  /** `FlightDeparture` and `FlightArrival`: an airfield and a time. */
  datatype Endpoint = Endpoint(location: AirfieldId, time: DateTime)

  /** `Flight`: equal, and hashed, by id. */
  datatype Flight = Flight(id: FlightId, departure: Endpoint, arrival: Endpoint, airship: AirshipId)

  /** The airship as `FlightScheduledV1` carries it: its id and its seats. */
  datatype ScheduledAirship = ScheduledAirship(id: AirshipId, numberOfSeats: U8)

  datatype FlightScheduledV1 = FlightScheduledV1(id: FlightId, departure: Endpoint, arrival: Endpoint, airship: ScheduledAirship)

  datatype AirfieldRegisteredV1 = AirfieldRegisteredV1(id: AirfieldId, name: string, location: string)

  datatype AirshipAddedToFleetV1 = AirshipAddedToFleetV1(id: AirshipId, name: string, model: string, numberOfSeats: U8)

  /** The scheduling events. */
  datatype Event =
    | AirfieldRegistered(airfield: AirfieldRegisteredV1)
    | AirshipAddedToFleet(airship: AirshipAddedToFleetV1)
    | FlightScheduled(flight: FlightScheduledV1)

  datatype FlightError = SameDepartureAndArrivalLocation | DepartureIsLaterThenArrival

  /** `PartialEq` of `Airfield` and of `Flight`: the ids decide. */
  predicate SameAirfield(a: Airfield, b: Airfield) {
    a.id == b.id
  }

  predicate SameFlight(a: Flight, b: Flight) {
    a.id == b.id
  }

  /** What every built flight satisfies: two different airfields, departure strictly before arrival. */
  predicate WellFormed(f: Flight) {
    f.departure.location != f.arrival.location && Before(f.departure.time, f.arrival.time)
  }

  /** The flight an event describes. */
  function FlightOf(event: FlightScheduledV1): Flight {
    Flight(event.id, event.departure, event.arrival, event.airship.id)
  }

  /**
   * `Flight::build`: refuses equal airfields first, then a departure that is
   * not before the arrival; otherwise returns the flight and the event that
   * describes exactly that flight, carrying the airship's seats as well.
   */
  function Build(id: FlightId, departureLocation: Airfield, departureTime: DateTime,
                 arrivalLocation: Airfield, arrivalTime: DateTime, airship: Airship): (r: Result<(Flight, FlightScheduledV1), FlightError>)
    ensures r == Err(SameDepartureAndArrivalLocation) <==> SameAirfield(departureLocation, arrivalLocation)
    ensures r == Err(DepartureIsLaterThenArrival) <==>
      !SameAirfield(departureLocation, arrivalLocation) && !Before(departureTime, arrivalTime)
    ensures r.Ok? ==>
      var (flight, event) := r.value;
      WellFormed(flight)
      && flight.id == id
      && flight.departure == Endpoint(departureLocation.id, departureTime)
      && flight.arrival == Endpoint(arrivalLocation.id, arrivalTime)
      && flight.airship == airship.id
      && FlightOf(event) == flight
      && event.airship.numberOfSeats == airship.numberOfSeats
  {
    if departureLocation.id == arrivalLocation.id then Err(SameDepartureAndArrivalLocation)
    else if departureTime.utc >= arrivalTime.utc then Err(DepartureIsLaterThenArrival)
    else
      var flight := Flight(id, Endpoint(departureLocation.id, departureTime), Endpoint(arrivalLocation.id, arrivalTime), airship.id);
      var event := FlightScheduledV1(id, Endpoint(departureLocation.id, departureTime), Endpoint(arrivalLocation.id, arrivalTime),
                                     ScheduledAirship(airship.id, airship.numberOfSeats));
      Ok((flight, event))
  }

  /**
   * Two flights built under the same id are equal however their airfields,
   * times and airships differ; built under different ids they are not.
   */
  lemma BuildEqualsById(id1: FlightId, id2: FlightId, d1: Airfield, t1: DateTime, a1: Airfield, u1: DateTime, s1: Airship,
                        d2: Airfield, t2: DateTime, a2: Airfield, u2: DateTime, s2: Airship)
    requires Build(id1, d1, t1, a1, u1, s1).Ok? && Build(id2, d2, t2, a2, u2, s2).Ok?
    ensures SameFlight(Build(id1, d1, t1, a1, u1, s1).value.0, Build(id2, d2, t2, a2, u2, s2).value.0) <==> id1 == id2
  {
  }
}
