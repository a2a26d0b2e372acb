/**
 * A reservation-side flight route: the airfield a flight leaves from and the
 * one it lands at. Airfield ids are their text. Route equality compares both
 * endpoints, which is Dafny's `==` on the datatype.
 */
module FlightRoutes {
  import opened Wrappers

  type AirfieldId = string

  datatype FlightRoute = FlightRoute(departure: AirfieldId, arrival: AirfieldId)

  datatype FlightRouteError = DepartureAndArrivalAreTheSame

  /** `build`: a route must leave one airfield for another. */
  function Build(departure: AirfieldId, arrival: AirfieldId): (r: Result<FlightRoute, FlightRouteError>)
    ensures r.Err? <==> departure == arrival
    ensures r.Ok? ==> r.value == FlightRoute(departure, arrival)
  {
    if departure == arrival then Err(DepartureAndArrivalAreTheSame)
    else Ok(FlightRoute(departure, arrival))
  }
}
