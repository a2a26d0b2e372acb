/** A leg of a journey: a flight route and the accommodations offered at its destination. */
module Segments {
  import opened Wrappers
  import opened FlightRoutes
  import SortedSets
  import Accommodations

  datatype Segment = Segment(flight: FlightRoute, accommodations: SortedSets.SortedSet<Accommodations.Accommodation>)

  datatype SegmentError = TooManyAccommodations

  const MAX_ACCOMMODATIONS := 10

  /** `build`: at most 10 accommodations; the route and accommodations are kept as given. */
  function Build(flight: FlightRoute, accommodations: SortedSets.SortedSet<Accommodations.Accommodation>): (r: Result<Segment, SegmentError>)
    ensures r.Err? <==> |accommodations| > MAX_ACCOMMODATIONS
    ensures r.Ok? ==> r.value.flight == flight && r.value.accommodations == accommodations
  {
    if |accommodations| > MAX_ACCOMMODATIONS then Err(TooManyAccommodations)
    else Ok(Segment(flight, accommodations))
  }

  /** `PartialEq`: segments are equal when their flight routes are. */
  function Key(s: Segment): FlightRoute {
    s.flight
  }

  function DepartsFrom(s: Segment): AirfieldId {
    s.flight.departure
  }

  function ArrivesAt(s: Segment): AirfieldId {
    s.flight.arrival
  }
}
