/** A scheduled flight as the reservation domain sees it. */
module Flights {
  import opened Wrappers
  import opened FlightRoutes
  import opened Chrono
  import opened MachineInts

  type FlightId = string

  /** `seats` (`NumberOfSeats`) is a u8. */
  datatype Flight = Flight(id: FlightId, route: FlightRoute, departure: DateTime, arrival: DateTime, seats: U8)

  datatype FlightError = ArrivalBeforeDeparture

  /** `build`: the departure must be strictly before the arrival. */
  function Build(id: FlightId, route: FlightRoute, departure: DateTime, arrival: DateTime, seats: U8): (r: Result<Flight, FlightError>)
    ensures r.Err? <==> !Before(departure, arrival)
    ensures r.Ok? ==> r.value == Flight(id, route, departure, arrival, seats)
  {
    if departure.utc >= arrival.utc then Err(ArrivalBeforeDeparture)
    else Ok(Flight(id, route, departure, arrival, seats))
  }

  /** `PartialEq`: flights are equal when their ids are. */
  predicate Same(a: Flight, b: Flight) {
    a.id == b.id
  }
}
