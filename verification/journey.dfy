/**
 * A journey: the published blueprint of a round trip, made of segments
 * (flight routes, each with the accommodations at its destination). It
 * checks that its segments form a round trip and turns a customer's choice
 * of flights and accommodations into an itinerary.
 */
module Journeys {
  import opened Wrappers
  import opened Chrono
  import opened FlightRoutes
  import opened Flights
  import opened Accommodations
  import opened Segments
  import opened Itineraries
  import SortedSets

  const JOURNEY_MIN_DAYS_IN_ACCOMMODATION: int := 3
  const JOURNEY_MAX_DAYS_IN_ACCOMMODATION: int := 21
  const MIN_SEGMENTS: int := 2
  const MAX_SEGMENTS: int := 20

  type JourneyId = string

  datatype JourneyError = TooFewSegments | TooManySegments | SegmentsDontFormARoundTrip

  datatype Journey = Journey(id: JourneyId, name: string, segments: SortedSets.SortedSet<Segment>)

  datatype JourneyPublishedV1 = JourneyPublishedV1(id: JourneyId, name: string, segments: SortedSets.SortedSet<Segment>)

  /** `PartialEq`: journeys are equal when their ids are. */
  predicate Same(a: Journey, b: Journey) {
    a.id == b.id
  }

  /** The number of segments leaving from `from`. */
  function DepartingCount(segments: seq<Segment>, from: AirfieldId): nat
    decreases |segments|
  {
    if |segments| == 0 then 0
    else (if DepartsFrom(segments[0]) == from then 1 else 0) + DepartingCount(segments[1..], from)
  }

  /**
   * What `segments_form_round_trip` checks: more than one segment, and the
   * destination of every segment is the departure of exactly one segment.
   */
  predicate FormsRoundTrip(segments: seq<Segment>) {
    (forall i :: 0 <= i < |segments| ==> DepartingCount(segments, ArrivesAt(segments[i])) == 1)
    && |segments| > 1
  }

  /** `segments_form_round_trip`: a loop that stops at the first segment without exactly one continuation. */
  method SegmentsFormRoundTrip(segments: seq<Segment>) returns (b: bool)
    ensures b <==> FormsRoundTrip(segments)
  {
    var i := 0;
    while i < |segments|
      invariant 0 <= i <= |segments|
      invariant forall k :: 0 <= k < i ==> DepartingCount(segments, ArrivesAt(segments[k])) == 1
    {
      var connectsExactlyOnce := DepartingCount(segments, ArrivesAt(segments[i])) == 1;
      if !connectsExactlyOnce {
        return false;
      }
      i := i + 1;
    }
    return |segments| > 1;
  }

  /**
   * `build`: 2 to 20 segments forming a round trip; the journey and its
   * published event carry the id, name and segments as given.
   */
  function Build(id: JourneyId, name: string, segments: SortedSets.SortedSet<Segment>)
    : (r: Result<(Journey, JourneyPublishedV1), JourneyError>)
    ensures r == Err(TooFewSegments) <==> |segments| < MIN_SEGMENTS
    ensures r == Err(TooManySegments) <==> |segments| > MAX_SEGMENTS
    ensures r == Err(SegmentsDontFormARoundTrip) <==>
      MIN_SEGMENTS <= |segments| <= MAX_SEGMENTS && !FormsRoundTrip(segments)
    ensures r.Ok? <==> MIN_SEGMENTS <= |segments| <= MAX_SEGMENTS && FormsRoundTrip(segments)
    ensures r.Ok? ==> r.value.0 == Journey(id, name, segments) && r.value.1 == JourneyPublishedV1(id, name, segments)
  {
    if |segments| < MIN_SEGMENTS then Err(TooFewSegments)
    else if |segments| > MAX_SEGMENTS then Err(TooManySegments)
    else if !FormsRoundTrip(segments) then Err(SegmentsDontFormARoundTrip)
    else Ok((Journey(id, name, segments), JourneyPublishedV1(id, name, segments)))
  }

  /** The predicate `resolve_route` searches the segments with. */
  function DepartingFrom(from: AirfieldId): Segment -> bool {
    (s: Segment) => DepartsFrom(s) == from
  }

  function Prefixed(route: seq<Segment>, rest: Option<seq<Segment>>): Option<seq<Segment>> {
    match rest
    case None => None
    case Some(r) => Some(route + r)
  }

  /**
   * The route from `from` to `arrival` that `resolve_route` follows: from
   * each airfield the first segment leaving it, until a segment lands at
   * `arrival`; None when no segment leaves an airfield on the way or when the
   * route would need more than `budget` segments.
   */
  function RouteFrom(segments: seq<Segment>, from: AirfieldId, arrival: AirfieldId, budget: nat): Option<seq<Segment>>
    decreases budget
  {
    match SortedSets.FirstMatch(segments, DepartingFrom(from))
    case None => None
    case Some(segment) =>
      if budget == 0 then None
      else if ArrivesAt(segment) == arrival then Some([segment])
      else Prefixed([segment], RouteFrom(segments, ArrivesAt(segment), arrival, budget - 1))
  }

  /** `resolve_route`'s result: a route of at most as many segments as the journey has. */
  function ResolvedRoute(segments: seq<Segment>, departure: AirfieldId, arrival: AirfieldId): Option<seq<Segment>> {
    RouteFrom(segments, departure, arrival, |segments|)
  }

  /** Prefixing with a segment, then with a route, is prefixing with the route extended by the segment. */
  lemma PrefixedAppend(route: seq<Segment>, segment: Segment, rest: Option<seq<Segment>>)
    ensures Prefixed(route, Prefixed([segment], rest)) == Prefixed(route + [segment], rest)
  {
    if rest.Some? {
      assert route + ([segment] + rest.value) == (route + [segment]) + rest.value;
    }
  }

  /** `resolve_route`: a while loop that follows the segments, one at a time, from the departure to the arrival. */
  method ResolveRoute(segments: seq<Segment>, departure: AirfieldId, arrival: AirfieldId) returns (r: Option<seq<Segment>>)
    ensures r == ResolvedRoute(segments, departure, arrival)
  {
    var route: seq<Segment> := [];
    var departsFrom := departure;
    var resolved := false;
    assert Prefixed([], ResolvedRoute(segments, departure, arrival)) == ResolvedRoute(segments, departure, arrival) by {
      if ResolvedRoute(segments, departure, arrival).Some? {
        assert [] + ResolvedRoute(segments, departure, arrival).value == ResolvedRoute(segments, departure, arrival).value;
      }
    }
    while !resolved
      invariant |route| <= |segments|
      invariant !resolved ==>
        ResolvedRoute(segments, departure, arrival) == Prefixed(route, RouteFrom(segments, departsFrom, arrival, |segments| - |route|))
      invariant resolved ==> ResolvedRoute(segments, departure, arrival) == Some(route)
      decreases |segments| - |route| + (if resolved then 0 else 1)
    {
      var found := SortedSets.Find(segments, DepartingFrom(departsFrom));
      if found.None? {
        return None;
      }
      var segment := found.value;
      route := route + [segment];
      if |route| > |segments| {
        return None;
      }
      PrefixedAppend(route[..|route| - 1], segment, RouteFrom(segments, ArrivesAt(segment), arrival, |segments| - |route|));
      assert route[..|route| - 1] + [segment] == route;
      departsFrom := ArrivesAt(segment);
      resolved := departsFrom == arrival;
    }
    return Some(route);
  }

  /**
   * A resolved route starts at the departure and ends at the arrival, each
   * segment leaving where the previous one landed; it has between one and
   * `budget` segments, all of them the journey's; it reaches the arrival only
   * at its end; and each step takes the first segment leaving that airfield.
   * With no segment leaving the departure there is no route.
   */
  lemma {:induction false} RouteFromShape(segments: seq<Segment>, from: AirfieldId, arrival: AirfieldId, budget: nat)
    ensures (forall k :: 0 <= k < |segments| ==> DepartsFrom(segments[k]) != from) ==>
      RouteFrom(segments, from, arrival, budget).None?
    ensures RouteFrom(segments, from, arrival, budget).Some? ==>
      var route := RouteFrom(segments, from, arrival, budget).value;
      1 <= |route| <= budget
      && DepartsFrom(route[0]) == from && ArrivesAt(route[|route| - 1]) == arrival
      && (forall i :: 0 <= i < |route| - 1 ==> ArrivesAt(route[i]) == DepartsFrom(route[i + 1]) && ArrivesAt(route[i]) != arrival)
      && (forall i :: 0 <= i < |route| ==> (route[i] in segments
            && SortedSets.FirstMatch(segments, DepartingFrom(DepartsFrom(route[i]))) == Some(route[i])))
    decreases budget
  {
    SortedSets.FirstMatchIsFirst(segments, DepartingFrom(from));
    match SortedSets.FirstMatch(segments, DepartingFrom(from))
    case None =>
    case Some(segment) =>
      if budget > 0 && ArrivesAt(segment) != arrival {
        RouteFromShape(segments, ArrivesAt(segment), arrival, budget - 1);
        var rest := RouteFrom(segments, ArrivesAt(segment), arrival, budget - 1);
        if rest.Some? {
          var route := [segment] + rest.value;
          assert forall i :: 1 <= i < |route| ==> route[i] == rest.value[i - 1];
        }
      }
  }

  /** A stage as the customer chose it: a flight and, except after the last flight, possibly a stay. */
  type StageChoice = (Flight, Option<Accommodation>)

  /** The check of one stage against its segment of the route: the flight's route, then the accommodation. */
  function StageError(segment: Segment, stage: StageChoice): Option<ItineraryError> {
    if segment.flight != stage.0.route then Some(MalformedRoute)
    else if stage.1.Some? && !SortedSets.Contains(segment.accommodations, Accommodations.Key, stage.1.value) then Some(AccommodationNotInStage)
    else None
  }

  /**
   * The check of the time between one flight's arrival and the next flight's
   * departure: not negative; with a stay, at least 3 calendar days; and in
   * any case at most 21 calendar days.
   */
  function GapError(arrive: StageChoice, depart: StageChoice): Option<ItineraryError> {
    if DurationBetweenFlights(arrive, depart) < 0 then Some(FlightsAreNotConsecutive)
    else if arrive.1.Some? && DaysBetweenFlights(arrive, depart) < JOURNEY_MIN_DAYS_IN_ACCOMMODATION then Some(DaysInAccommodationIsTooShort)
    else if DaysBetweenFlights(arrive, depart) > JOURNEY_MAX_DAYS_IN_ACCOMMODATION then Some(DaysInAccommodationIsTooLong)
    else None
  }

  /** The time from one flight's arrival to the next flight's departure, in seconds. */
  function DurationBetweenFlights(arrive: StageChoice, depart: StageChoice): int {
    Elapsed(arrive.0.arrival, depart.0.departure)
  }

  /** The calendar days from one flight's arrival to the next flight's departure, each in its local time. */
  function DaysBetweenFlights(arrive: StageChoice, depart: StageChoice): int {
    DateNaive(depart.0.departure) - DateNaive(arrive.0.arrival)
  }

  /** The first stage, from position i on, that fails against its segment. */
  function FirstStageError(route: seq<Segment>, stages: seq<StageChoice>, i: nat): (e: Option<ItineraryError>)
    requires |route| == |stages| && i <= |stages|
    ensures e.None? <==> forall k :: i <= k < |stages| ==> StageError(route[k], stages[k]).None?
    ensures e.Some? ==> exists k :: (i <= k < |stages| && e == StageError(route[k], stages[k])
      && forall j :: i <= j < k ==> StageError(route[j], stages[j]).None?)
    decreases |stages| - i
  {
    if i == |stages| then None
    else if StageError(route[i], stages[i]).Some? then StageError(route[i], stages[i])
    else FirstStageError(route, stages, i + 1)
  }

  /** The check of the gap after stage k. */
  function GapAt(stages: seq<StageChoice>, k: nat): Option<ItineraryError>
    requires k + 1 < |stages|
  {
    GapError(stages[k], stages[k + 1])
  }

  /** The first pair of consecutive stages, from position i on, with a wrong gap. */
  function FirstGapError(stages: seq<StageChoice>, i: nat): (e: Option<ItineraryError>)
    requires i <= |stages|
    ensures e.None? <==> forall k :: i <= k < |stages| - 1 ==> GapAt(stages, k).None?
    ensures e.Some? ==> exists k :: (i <= k < |stages| - 1 && e == GapAt(stages, k)
      && forall j :: i <= j < k ==> GapAt(stages, j).None?)
    decreases |stages| - i
  {
    if i + 1 >= |stages| then None
    else if GapAt(stages, i).Some? then GapAt(stages, i)
    else FirstGapError(stages, i + 1)
  }

  /**
   * `parse_itinerary`'s result, checks in the source's order: no stages; a
   * stay after the last flight; no route between the first departure and the
   * last arrival, or one of another length; the first stage that does not
   * follow its segment; the first wrong gap between flights. Otherwise the
   * stages, all Planned, in the order given.
   */
  function ParsedItinerary(journey: Journey, stages: seq<StageChoice>): Result<Itinerary, ItineraryError> {
    if |stages| == 0 then Err(NoStages)
    else if stages[|stages| - 1].1.Some? then Err(LastStageHasAccommodation)
    else
      match ResolvedRoute(journey.segments, stages[0].0.route.departure, stages[|stages| - 1].0.route.arrival)
      case None => Err(MalformedRoute)
      case Some(route) =>
        if |route| != |stages| then Err(MalformedRoute)
        else match FirstStageError(route, stages, 0)
          case Some(e) => Err(e)
          case None =>
            match FirstGapError(stages, 0)
            case Some(e) => Err(e)
            case None => FromIter(stages)
  }

  /** `parse_itinerary`'s first loop: every stage against its segment of the route, stopping at the first failure. */
  method CheckStages(route: seq<Segment>, stages: seq<StageChoice>) returns (e: Option<ItineraryError>)
    requires |route| == |stages|
    ensures e == FirstStageError(route, stages, 0)
  {
    var i := 0;
    while i < |stages|
      invariant 0 <= i <= |stages|
      invariant FirstStageError(route, stages, 0) == FirstStageError(route, stages, i)
    {
      var segment, stage := route[i], stages[i];
      if segment.flight != stage.0.route {
        return Some(MalformedRoute);
      }
      if stage.1.Some? && !SortedSets.Contains(segment.accommodations, Accommodations.Key, stage.1.value) {
        return Some(AccommodationNotInStage);
      }
      i := i + 1;
    }
    return None;
  }

  /** `parse_itinerary`'s second loop: the gap between each pair of consecutive stages, stopping at the first failure. */
  method CheckGaps(stages: seq<StageChoice>) returns (e: Option<ItineraryError>)
    ensures e == FirstGapError(stages, 0)
  {
    if |stages| == 0 {
      return None;
    }
    var k := 0;
    while k + 1 < |stages|
      invariant 0 <= k < |stages|
      invariant FirstGapError(stages, 0) == FirstGapError(stages, k)
    {
      var arrive, depart := stages[k], stages[k + 1];
      var durationBetweenFlights := Elapsed(arrive.0.arrival, depart.0.departure);
      var daysBetweenFlights := DateNaive(depart.0.departure) - DateNaive(arrive.0.arrival);
      if durationBetweenFlights < 0 {
        return Some(FlightsAreNotConsecutive);
      }
      if arrive.1.Some? && daysBetweenFlights < JOURNEY_MIN_DAYS_IN_ACCOMMODATION {
        return Some(DaysInAccommodationIsTooShort);
      }
      if daysBetweenFlights > JOURNEY_MAX_DAYS_IN_ACCOMMODATION {
        return Some(DaysInAccommodationIsTooLong);
      }
      k := k + 1;
    }
    return None;
  }

  /** `parse_itinerary`: the route is resolved, then two loops check the stages and the gaps, returning at the first error. */
  method ParseItinerary(journey: Journey, stages: seq<StageChoice>) returns (r: Result<Itinerary, ItineraryError>)
    ensures r == ParsedItinerary(journey, stages)
  {
    if |stages| == 0 {
      return Err(NoStages);
    }
    var firstStage, lastStage := stages[0], stages[|stages| - 1];
    if lastStage.1.Some? {
      return Err(LastStageHasAccommodation);
    }
    var resolved := ResolveRoute(journey.segments, firstStage.0.route.departure, lastStage.0.route.arrival);
    if resolved.None? {
      return Err(MalformedRoute);
    }
    var route := resolved.value;
    if |route| != |stages| {
      return Err(MalformedRoute);
    }
    var stageError := CheckStages(route, stages);
    if stageError.Some? {
      return Err(stageError.value);
    }
    var gapError := CheckGaps(stages);
    if gapError.Some? {
      return Err(gapError.value);
    }
    return FromIter(stages);
  }

  /** The stages follow the route, one segment each, and every stay is offered by its segment. */
  predicate FollowsRoute(route: seq<Segment>, stages: seq<StageChoice>) {
    |route| == |stages|
    && forall k :: 0 <= k < |stages| ==> (route[k].flight == stages[k].0.route
         && (stages[k].1.Some? ==> SortedSets.Contains(route[k].accommodations, Accommodations.Key, stages[k].1.value)))
  }

  /**
   * Every flight leaves after the previous one landed and at most 21
   * calendar days later, and at least 3 days later when there is a stay in
   * between.
   */
  predicate GapsWithinBounds(stages: seq<StageChoice>) {
    forall k :: 0 <= k < |stages| - 1 ==>
      (Elapsed(stages[k].0.arrival, stages[k + 1].0.departure) >= 0
       && DateNaive(stages[k + 1].0.departure) - DateNaive(stages[k].0.arrival) <= JOURNEY_MAX_DAYS_IN_ACCOMMODATION
       && (stages[k].1.Some? ==>
             DateNaive(stages[k + 1].0.departure) - DateNaive(stages[k].0.arrival) >= JOURNEY_MIN_DAYS_IN_ACCOMMODATION))
  }

  /**
   * An itinerary is accepted exactly when the choice is a proper trip along
   * the journey: there is a stage and no stay after the last flight; the
   * stages follow the route from the first departure to the last arrival;
   * and the gaps between flights are within bounds. The accepted itinerary
   * is the choice itself with every stage Planned.
   */
  lemma ParsedItineraryAccepts(journey: Journey, stages: seq<StageChoice>)
    ensures ParsedItinerary(journey, stages).Ok? <==>
      |stages| > 0 && stages[|stages| - 1].1.None?
      && (var route := ResolvedRoute(journey.segments, stages[0].0.route.departure, stages[|stages| - 1].0.route.arrival);
          route.Some? && FollowsRoute(route.value, stages))
      && GapsWithinBounds(stages)
    ensures ParsedItinerary(journey, stages).Ok? ==>
      var it := ParsedItinerary(journey, stages).value;
      |it| == |stages| && IsPlanned(it)
      && forall k :: 0 <= k < |stages| ==> it[k].flight == stages[k].0 && it[k].accommodation == stages[k].1
  {
    if |stages| > 0 && stages[|stages| - 1].1.None? {
      var resolved := ResolvedRoute(journey.segments, stages[0].0.route.departure, stages[|stages| - 1].0.route.arrival);
      if resolved.Some? && |resolved.value| == |stages| {
        var route := resolved.value;
        assert FirstStageError(route, stages, 0).None? <==> FollowsRoute(route, stages);
        assert FirstGapError(stages, 0).None? <==> GapsWithinBounds(stages) by {
          forall k | 0 <= k < |stages| - 1
            ensures GapAt(stages, k).None? <==>
              (DurationBetweenFlights(stages[k], stages[k + 1]) >= 0
               && DaysBetweenFlights(stages[k], stages[k + 1]) <= JOURNEY_MAX_DAYS_IN_ACCOMMODATION
               && (stages[k].1.Some? ==> DaysBetweenFlights(stages[k], stages[k + 1]) >= JOURNEY_MIN_DAYS_IN_ACCOMMODATION))
          { }
        }
      }
    }
  }

  /**
   * The journeys of the unit tests: there and back between EHAM and ENLI is
   * a round trip, whose route from EHAM back to EHAM takes both segments;
   * two segments leaving EHAM are not; a single segment is too few.
   */
  lemma RoundTripExamples(id: JourneyId, name: string)
    ensures var there, back := Segment(FlightRoute("EHAM", "ENLI"), []), Segment(FlightRoute("ENLI", "EHAM"), []);
      FormsRoundTrip([there, back]) && Build(id, name, [there, back]).Ok?
      && ResolvedRoute([there, back], "EHAM", "EHAM") == Some([there, back])
    ensures var there, elsewhere := Segment(FlightRoute("EHAM", "ENLI"), []), Segment(FlightRoute("EHAM", "ENBR"), []);
      Build(id, name, [there, elsewhere]) == Err(SegmentsDontFormARoundTrip)
      && Build(id, name, [there]) == Err(TooFewSegments)
      && Build(id, name, []) == Err(TooFewSegments)
  {
    assert "EHAM" != "ENLI" by { assert "EHAM"[1] != "ENLI"[1]; }
    assert "EHAM" != "ENBR" by { assert "EHAM"[1] != "ENBR"[1]; }
    var there, back := Segment(FlightRoute("EHAM", "ENLI"), []), Segment(FlightRoute("ENLI", "EHAM"), []);
    assert [there, back][1..] == [back] && [back][1..] == [];
    assert DepartingCount([back], "ENLI") == 1 + DepartingCount([], "ENLI");
    assert DepartingCount([there, back], "ENLI") == 0 + DepartingCount([back], "ENLI");
    assert DepartingCount([back], "EHAM") == 0 + DepartingCount([], "EHAM");
    assert DepartingCount([there, back], "EHAM") == 1 + DepartingCount([back], "EHAM");
    assert SortedSets.FirstMatch([there, back], DepartingFrom("EHAM")) == Some(there);
    assert SortedSets.FirstMatch([there, back], DepartingFrom("ENLI")) == Some(back);
    assert RouteFrom([there, back], "ENLI", "EHAM", 1) == Some([back]);
    assert RouteFrom([there, back], "EHAM", "EHAM", 2) == Prefixed([there], Some([back]));
    assert [there] + [back] == [there, back];
    var elsewhere := Segment(FlightRoute("EHAM", "ENBR"), []);
    assert [there, elsewhere][1..] == [elsewhere] && [elsewhere][1..] == [];
    assert DepartingCount([there, elsewhere], "ENLI") == 0;
  }

  /**
   * The accommodations offered at `location`, in segment order: the
   * segments arriving there (`filter`), then their accommodations
   * (`flat_map`).
   */
  function Offered(segments: seq<Segment>, location: AirfieldId): seq<Accommodation>
    decreases |segments|
  {
    if |segments| == 0 then []
    else (if ArrivesAt(segments[0]) == location then segments[0].accommodations else []) + Offered(segments[1..], location)
  }

  /** The a-th accommodation of the k-th segment has id `id`, and that segment arrives at `location`. */
  predicate OfferedAt(segments: seq<Segment>, location: AirfieldId, id: AccommodationId, k: int, a: int) {
    0 <= k < |segments| && ArrivesAt(segments[k]) == location
    && 0 <= a < |segments[k].accommodations| && segments[k].accommodations[a].id == id
  }

  /**
   * The accommodation with id `id` offered at `location`: the `find` over
   * `Offered`, which is the first one in segment order, and within its
   * segment in the set's order.
   */
  function FindIn(segments: seq<Segment>, location: AirfieldId, id: AccommodationId): (r: Option<Accommodation>)
    ensures r == SortedSets.FirstMatch(Offered(segments, location), (a: Accommodation) => a.id == id)
    ensures r.None? <==> forall k, a :: !OfferedAt(segments, location, id, k, a)
    ensures r.Some? ==> exists k, a :: (OfferedAt(segments, location, id, k, a) && r.value == segments[k].accommodations[a]
      && forall j, b :: OfferedAt(segments, location, id, j, b) ==> k < j || (k == j && a <= b))
    decreases |segments|
  {
    if |segments| == 0 then None
    else
      var p := (a: Accommodation) => a.id == id;
      var here := SortedSets.FirstMatch(segments[0].accommodations, p);
      SortedSets.FirstMatchIsFirst(segments[0].accommodations, p);
      var rest := FindIn(segments[1..], location, id);
      var first := if ArrivesAt(segments[0]) == location then segments[0].accommodations else [];
      SortedSets.FirstMatchAppend(first, Offered(segments[1..], location), p);
      assert forall k, a :: OfferedAt(segments, location, id, k, a) <==>
        (k == 0 && ArrivesAt(segments[0]) == location && 0 <= a < |first| && p(first[a]))
        || (k >= 1 && OfferedAt(segments[1..], location, id, k - 1, a));
      if ArrivesAt(segments[0]) == location && here.Some? then
        assert exists a :: (OfferedAt(segments, location, id, 0, a) && here.value == segments[0].accommodations[a]
          && forall j, b :: OfferedAt(segments, location, id, j, b) ==> 0 < j || (0 == j && a <= b));
        here
      else
        assert forall a :: !OfferedAt(segments, location, id, 0, a);
        assert rest.Some? ==> exists k, a :: (OfferedAt(segments, location, id, k, a) && rest.value == segments[k].accommodations[a]
          && forall j, b :: OfferedAt(segments, location, id, j, b) ==> k < j || (k == j && a <= b)) by {
          if rest.Some? {
            var k, a :| OfferedAt(segments[1..], location, id, k, a) && rest.value == segments[1..][k].accommodations[a]
              && forall j, b :: OfferedAt(segments[1..], location, id, j, b) ==> k < j || (k == j && a <= b);
            assert OfferedAt(segments, location, id, k + 1, a);
          }
        }
        rest
  }

  /**
   * `find_accommodation`: the first accommodation with the given id among the
   * segments landing at `location`, in segment order.
   */
  function FindAccommodation(journey: Journey, location: AirfieldId, id: AccommodationId): (r: Option<Accommodation>)
    ensures r == SortedSets.FirstMatch(Offered(journey.segments, location), (a: Accommodation) => a.id == id)
    ensures r.None? <==> forall k, a :: !OfferedAt(journey.segments, location, id, k, a)
    ensures r.Some? ==> r.value.id == id && exists k, a :: (OfferedAt(journey.segments, location, id, k, a)
      && r.value == journey.segments[k].accommodations[a]
      && forall j, b :: OfferedAt(journey.segments, location, id, j, b) ==> k < j || (k == j && a <= b))
  {
    FindIn(journey.segments, location, id)
  }
}
