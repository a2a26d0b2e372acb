/**
 * An itinerary: the ordered stages of a reservation, each a flight with an
 * optional stay at its destination and the flight's booking status.
 */
module Itineraries {
  import opened Wrappers
  import opened Chrono
  import opened Flights
  import opened Accommodations

  datatype StageError = InsufficientSeats

  /** The variant of an `ItineraryStage`; every variant carries a flight and an optional accommodation. */
  datatype Status = Planned | Reserved | ReservedFailed(reason: StageError) | Annulled

  datatype Stage = Stage(status: Status, flight: Flight, accommodation: Option<Accommodation>)

  /** The stages in order; every itinerary the domain builds has at least one. */
  type Itinerary = seq<Stage>

  datatype ItineraryError =
    | NoStages
    | UnknownFlight(flight: FlightId)
    | UnknownAccommodation(accommodation: AccommodationId)
    | LastStageHasAccommodation
    | MalformedRoute
    | AccommodationNotInStage
    | FlightsAreNotConsecutive
    | DaysInAccommodationIsTooShort
    | DaysInAccommodationIsTooLong
    | IoError(message: string)

  /** `from_iter`: every (flight, accommodation) pair becomes a Planned stage; no pairs is NoStages. */
  function FromIter(stages: seq<(Flight, Option<Accommodation>)>): (r: Result<Itinerary, ItineraryError>)
    ensures r.Err? <==> |stages| == 0
    ensures r.Err? ==> r.error == NoStages
    ensures r.Ok? ==> |r.value| == |stages| && IsPlanned(r.value)
    ensures r.Ok? ==> forall i :: 0 <= i < |stages| ==>
      r.value[i].flight == stages[i].0 && r.value[i].accommodation == stages[i].1
  {
    var planned := seq(|stages|, i requires 0 <= i < |stages| => Stage(Planned, stages[i].0, stages[i].1));
    if |planned| > 0 then Ok(planned) else Err(NoStages)
  }

  predicate IsPlanned(it: Itinerary) {
    forall i :: 0 <= i < |it| ==> it[i].status == Planned
  }

  /** `ItineraryStage::planned`. */
  function PlannedStage(s: Stage): Stage {
    Stage(Planned, s.flight, s.accommodation)
  }

  /** `planned`: every stage back to Planned. */
  function PlannedForm(it: Itinerary): Itinerary {
    seq(|it|, i requires 0 <= i < |it| => PlannedStage(it[i]))
  }

  /** `planned` keeps the length, every flight and accommodation, makes every stage Planned and is idempotent. */
  lemma PlannedFormProperties(it: Itinerary)
    ensures |PlannedForm(it)| == |it| && IsPlanned(PlannedForm(it))
    ensures forall i :: 0 <= i < |it| ==>
      PlannedForm(it)[i].flight == it[i].flight && PlannedForm(it)[i].accommodation == it[i].accommodation
    ensures PlannedForm(PlannedForm(it)) == PlannedForm(it)
    ensures IsPlanned(it) ==> PlannedForm(it) == it
  {
    assert PlannedForm(PlannedForm(it)) == PlannedForm(it);
    if IsPlanned(it) {
      assert forall i :: 0 <= i < |it| ==> PlannedForm(it)[i] == it[i];
    }
  }

  function AccommodationKey(a: Option<Accommodation>): Option<AccommodationId> {
    match a
    case Some(acc) => Some(acc.id)
    case None => None
  }

  /** What the derived `PartialEq` of a stage compares: the variant (and its reason), the flight id and the accommodation id. */
  function StageKey(s: Stage): (Status, FlightId, Option<AccommodationId>) {
    (s.status, s.flight.id, AccommodationKey(s.accommodation))
  }

  /** The derived `PartialEq` of `Itinerary`: stage by stage. */
  predicate Equal(a: Itinerary, b: Itinerary) {
    |a| == |b| && forall i :: 0 <= i < |a| ==> StageKey(a[i]) == StageKey(b[i])
  }

  /** `equivalent`: the planned forms are equal. */
  predicate Equivalent(a: Itinerary, b: Itinerary) {
    Equal(PlannedForm(a), PlannedForm(b))
  }

  /**
   * Two itineraries are equivalent exactly when they visit the same flights
   * with the same accommodations in the same order, whatever their statuses;
   * so `equivalent` is reflexive, symmetric and transitive.
   */
  lemma EquivalentMeansSameStops(a: Itinerary, b: Itinerary, c: Itinerary)
    ensures Equivalent(a, b) <==> |a| == |b| && forall i :: 0 <= i < |a| ==>
      a[i].flight.id == b[i].flight.id && AccommodationKey(a[i].accommodation) == AccommodationKey(b[i].accommodation)
    ensures Equivalent(a, a)
    ensures Equivalent(a, b) ==> Equivalent(b, a)
    ensures Equivalent(a, b) && Equivalent(b, c) ==> Equivalent(a, c)
  {
    var pa, pb := PlannedForm(a), PlannedForm(b);
    if Equivalent(a, b) {
      forall i | 0 <= i < |a|
        ensures a[i].flight.id == b[i].flight.id && AccommodationKey(a[i].accommodation) == AccommodationKey(b[i].accommodation)
      {
        assert StageKey(pa[i]) == StageKey(pb[i]);
      }
    }
  }

  /** `first_stage`: the itinerary is never empty (the source panics otherwise). */
  function FirstStage(it: Itinerary): Stage
    requires |it| > 0
  {
    it[0]
  }

  function LastStage(it: Itinerary): Stage
    requires |it| > 0
  {
    it[|it| - 1]
  }

  /** `departure_date`: the local calendar day the first flight leaves. */
  function DepartureDate(it: Itinerary): Date
    requires |it| > 0
  {
    DateNaive(FirstStage(it).flight.departure)
  }

  /** `duration`: from the first flight's departure to the last flight's arrival, in seconds. */
  function Duration(it: Itinerary): int
    requires |it| > 0
  {
    Elapsed(FirstStage(it).flight.departure, LastStage(it).flight.arrival)
  }

  /** The three `mark_flight_as_*` operations of a stage. */
  datatype Mark = ToReserved | ToReservedFailed(reason: StageError) | ToAnnulled

  function MarkedStatus(m: Mark): Status {
    match m
    case ToReserved => Reserved
    case ToReservedFailed(reason) => ReservedFailed(reason)
    case ToAnnulled => Annulled
  }

  /** `ItineraryStage::mark_flight_as_*`: the target variant, flight and accommodation kept. */
  function MarkStage(s: Stage, m: Mark): (r: Stage)
    ensures r.flight == s.flight && r.accommodation == s.accommodation
    ensures r.status == MarkedStatus(m)
  {
    Stage(MarkedStatus(m), s.flight, s.accommodation)
  }

  /** `mark_flight`: mark every stage whose flight has the given id. */
  function MarkFlight(it: Itinerary, flight: FlightId, m: Mark): Itinerary {
    seq(|it|, i requires 0 <= i < |it| => if it[i].flight.id == flight then MarkStage(it[i], m) else it[i])
  }

  function MarkFlightAsReserved(it: Itinerary, flight: FlightId): Itinerary {
    MarkFlight(it, flight, ToReserved)
  }

  function MarkFlightAsReservedFailed(it: Itinerary, flight: FlightId, reason: StageError): Itinerary {
    MarkFlight(it, flight, ToReservedFailed(reason))
  }

  function MarkFlightAsAnnulled(it: Itinerary, flight: FlightId): Itinerary {
    MarkFlight(it, flight, ToAnnulled)
  }

  /**
   * Marking a flight changes only the stages of that flight, each to the
   * mark's variant with its flight and accommodation kept; the itinerary
   * stays equivalent to the original; marking twice equals marking once.
   */
  lemma MarkFlightProperties(it: Itinerary, flight: FlightId, m: Mark)
    ensures |MarkFlight(it, flight, m)| == |it|
    ensures forall i :: 0 <= i < |it| && it[i].flight.id != flight ==> MarkFlight(it, flight, m)[i] == it[i]
    ensures forall i :: 0 <= i < |it| && it[i].flight.id == flight ==>
      MarkFlight(it, flight, m)[i] == Stage(MarkedStatus(m), it[i].flight, it[i].accommodation)
    ensures Equivalent(MarkFlight(it, flight, m), it)
    ensures MarkFlight(MarkFlight(it, flight, m), flight, m) == MarkFlight(it, flight, m)
  {
    var once := MarkFlight(it, flight, m);
    assert PlannedForm(once) == PlannedForm(it);
    assert MarkFlight(once, flight, m) == once;
  }
}
