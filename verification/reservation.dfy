/**
 * The reservation aggregate: a reservation is Confirmed (it can still be
 * revised) or Cancelled, and keeps the history of its earlier passengers and
 * itineraries as revisions, newest first. The number of revisions is the
 * reservation's version.
 */
module ReservationAggregate {
  import opened Wrappers
  import opened Chrono
  import opened Flights
  import opened Itineraries
  import opened PassengerLists

  type ReservationId = string
  type JourneyId = string

  /** The contact person is carried along unchanged by every operation modelled here. */
  datatype Contact = Contact(name: string, email: string, phone: Option<string>)

  /** `Revision`: (version, passengers, itinerary) as they were before a change. */
  datatype Revision = Revision(version: nat, passengers: Passengers, itinerary: Itinerary)

  datatype Reservation =
    | Confirmed(id: ReservationId, journey: JourneyId, contact: Contact, passengers: Passengers,
                itinerary: Itinerary, revisions: seq<Revision>)
    | Cancelled(id: ReservationId, journey: JourneyId, contact: Contact, time: DateTime,
                revisions: seq<Revision>)

  datatype ReservationConfirmedV1 = ReservationConfirmedV1(
    id: ReservationId, journey: JourneyId, contact: Contact, passengers: Passengers,
    itinerary: Itinerary, revisions: seq<Revision>)

  datatype ReservationRevisedV1 = ReservationRevisedV1(
    id: ReservationId, journey: JourneyId, passengers: Passengers, itinerary: Itinerary)

  datatype ReservationCancelledV1 = ReservationCancelledV1(id: ReservationId, journey: JourneyId, contact: Contact)

  /** `version`: the number of revisions. */
  function Version(r: Reservation): nat {
    |r.revisions|
  }

  /** `PartialEq`: reservations are equal when their ids are. */
  predicate Same(a: Reservation, b: Reservation) {
    a.id == b.id
  }

  /**
   * The invariant every operation keeps: the revision at position i (newest
   * first) was made at version |revisions| - 1 - i, and every itinerary has a
   * stage.
   */
  predicate Valid(r: Reservation) {
    (forall i :: 0 <= i < |r.revisions| ==> r.revisions[i].version == |r.revisions| - 1 - i)
    && (forall i :: 0 <= i < |r.revisions| ==> |r.revisions[i].itinerary| > 0)
    && (r.Confirmed? ==> |r.itinerary| > 0)
  }

  /** The revision recorded when a confirmed reservation changes: its current version, passengers and itinerary. */
  function CurrentRevision(r: Reservation): Revision
    requires r.Confirmed?
  {
    Revision(|r.revisions|, r.passengers, r.itinerary)
  }

  /** Recording the current state as a revision keeps the revision versions consecutive and raises the version by one. */
  lemma {:induction false} RecordRevisionKeepsValid(r: Reservation)
    requires Valid(r)
    ensures r.Confirmed? ==> var revs := [CurrentRevision(r)] + r.revisions;
      |revs| == Version(r) + 1
      && (forall i :: 0 <= i < |revs| ==> revs[i].version == |revs| - 1 - i)
      && (forall i :: 0 <= i < |revs| ==> |revs[i].itinerary| > 0)
  {
    if r.Confirmed? {
      var revs := [CurrentRevision(r)] + r.revisions;
      forall i | 0 < i < |revs| ensures revs[i] == r.revisions[i - 1] { }
    }
  }

  /** Putting the current itinerary back to Planned keeps its stops, so the result is equivalent to it. */
  lemma PlannedItineraryFacts(r: Reservation)
    ensures r.Confirmed? ==> (
      |PlannedForm(r.itinerary)| == |r.itinerary|
      && IsPlanned(PlannedForm(r.itinerary)) && Equivalent(PlannedForm(r.itinerary), r.itinerary)
      && (|r.itinerary| > 0 ==> DepartureDate(PlannedForm(r.itinerary)) == DepartureDate(r.itinerary)))
  {
    if r.Confirmed? {
      PlannedFormProperties(r.itinerary);
      EquivalentMeansSameStops(PlannedForm(r.itinerary), r.itinerary, r.itinerary);
    }
  }

  /** How `mark_flight` treats one revision: older ones annul the flight, the one of `version` gets the mark, newer ones stay. */
  function MarkRevision(rev: Revision, flight: FlightId, version: nat, m: Mark): Revision {
    if rev.version < version then Revision(rev.version, rev.passengers, MarkFlight(rev.itinerary, flight, ToAnnulled))
    else if rev.version == version then Revision(rev.version, rev.passengers, MarkFlight(rev.itinerary, flight, m))
    else rev
  }

  function MarkRevisions(revs: seq<Revision>, flight: FlightId, version: nat, m: Mark): seq<Revision> {
    seq(|revs|, i requires 0 <= i < |revs| => MarkRevision(revs[i], flight, version, m))
  }

  /**
   * `mark_flight`: the reply to a flight reservation request made at
   * `version`. The current itinerary is marked only if the reservation is
   * still at that version; the revisions are marked by `MarkRevision`.
   */
  function MarkReservationFlight(r: Reservation, flight: FlightId, version: nat, m: Mark): Reservation {
    match r
    case Confirmed(id, journey, contact, passengers, itinerary, revisions) =>
      Confirmed(id, journey, contact, passengers,
                if Version(r) == version then MarkFlight(itinerary, flight, m) else itinerary,
                MarkRevisions(revisions, flight, version, m))
    case Cancelled(id, journey, contact, time, revisions) =>
      Cancelled(id, journey, contact, time, MarkRevisions(revisions, flight, version, m))
  }

  function MarkFlightAsReserved(r: Reservation, flight: FlightId, version: nat): Reservation {
    MarkReservationFlight(r, flight, version, ToReserved)
  }

  function MarkFlightAsReservedFailed(r: Reservation, flight: FlightId, reason: StageError, version: nat): Reservation {
    MarkReservationFlight(r, flight, version, ToReservedFailed(reason))
  }

  function MarkFlightAsAnnulled(r: Reservation, flight: FlightId, version: nat): Reservation {
    MarkReservationFlight(r, flight, version, ToAnnulled)
  }

  /**
   * Marking a flight keeps the variant, id, journey, contact, passengers,
   * version and validity; every itinerary stays equivalent to what it was;
   * the current itinerary changes only when `version` is the current version;
   * and the revisions older than `version` only ever get annulled.
   */
  lemma MarkReservationFlightProperties(r: Reservation, flight: FlightId, version: nat, m: Mark)
    ensures var after := MarkReservationFlight(r, flight, version, m);
      after.Confirmed? == r.Confirmed? && after.id == r.id && after.journey == r.journey
      && after.contact == r.contact && Version(after) == Version(r)
      && (Valid(r) ==> Valid(after))
      && (r.Confirmed? ==> after.passengers == r.passengers && Equivalent(after.itinerary, r.itinerary))
      && (r.Confirmed? && version != Version(r) ==> after.itinerary == r.itinerary)
      && (r.Confirmed? && version == Version(r) ==> after.itinerary == MarkFlight(r.itinerary, flight, m))
      && (forall i :: 0 <= i < |r.revisions| ==>
            after.revisions[i].version == r.revisions[i].version
            && after.revisions[i].passengers == r.revisions[i].passengers
            && Equivalent(after.revisions[i].itinerary, r.revisions[i].itinerary)
            && (r.revisions[i].version < version ==>
                  after.revisions[i].itinerary == MarkFlight(r.revisions[i].itinerary, flight, ToAnnulled))
            && (r.revisions[i].version > version ==> after.revisions[i] == r.revisions[i]))
  {
    var after := MarkReservationFlight(r, flight, version, m);
    forall i | 0 <= i < |r.revisions|
      ensures Equivalent(after.revisions[i].itinerary, r.revisions[i].itinerary)
      ensures |after.revisions[i].itinerary| == |r.revisions[i].itinerary|
    {
      MarkFlightProperties(r.revisions[i].itinerary, flight, ToAnnulled);
      MarkFlightProperties(r.revisions[i].itinerary, flight, m);
      EquivalentMeansSameStops(r.revisions[i].itinerary, r.revisions[i].itinerary, r.revisions[i].itinerary);
    }
    if r.Confirmed? {
      MarkFlightProperties(r.itinerary, flight, m);
      EquivalentMeansSameStops(r.itinerary, r.itinerary, r.itinerary);
    }
  }

  /** Delivering the same mark twice has the effect of delivering it once. */
  lemma MarkReservationFlightIdempotent(r: Reservation, flight: FlightId, version: nat, m: Mark)
    ensures MarkReservationFlight(MarkReservationFlight(r, flight, version, m), flight, version, m)
         == MarkReservationFlight(r, flight, version, m)
  {
    var once := MarkReservationFlight(r, flight, version, m);
    forall i | 0 <= i < |r.revisions|
      ensures MarkRevision(once.revisions[i], flight, version, m) == once.revisions[i]
    {
      MarkFlightProperties(r.revisions[i].itinerary, flight, ToAnnulled);
      MarkFlightProperties(r.revisions[i].itinerary, flight, m);
    }
    assert MarkRevisions(once.revisions, flight, version, m) == once.revisions;
    if r.Confirmed? {
      MarkFlightProperties(r.itinerary, flight, m);
    }
  }
}

/**
 * The operations of the reservation aggregate that go through the
 * reservation policy. The current time, which the source reads from the
 * clock, is the parameter `now` (seconds since the epoch, UTC).
 */
module Reservations {
  import opened Wrappers
  import opened Chrono
  import opened Itineraries
  import opened PassengerLists
  import opened ReservationAggregate
  import opened ReservationPolicies

  /** `new_confirmed`: a confirmed reservation without revisions, if the policy allows confirming it now. */
  function NewConfirmed(policy: ReservationPolicy, now: int, id: ReservationId, journey: JourneyId, contact: Contact,
                        passengers: PassengerArrangement, itinerary: Itinerary)
    : (result: Result<(Reservation, ReservationConfirmedV1), ReservationPolicyError>)
    requires |itinerary| > 0
    ensures result.Err? <==> !WithinRevisionPeriod(policy, itinerary, DateNaive(Utc(now)))
    ensures result.Err? ==> result.error == NotAllowedToConfirmReservationShortlyBeforeDeparture
    ensures result.Ok? ==>
      var (r, event) := result.value;
      r == Confirmed(id, journey, contact, Arrangement(passengers), itinerary, [])
      && Version(r) == 0 && Valid(r)
      && event == ReservationConfirmedV1(id, journey, contact, Arrangement(passengers), itinerary, [])
  {
    var reservation := Confirmed(id, journey, contact, Arrangement(passengers), itinerary, []);
    var confirmed := ConfirmPolicy(policy, reservation, DateNaive(Utc(now)), (r: Reservation) => r);
    match confirmed
    case Err(e) => Err(e)
    case Ok(r) => Ok((r, ReservationConfirmedV1(id, journey, contact, Arrangement(passengers), itinerary, [])))
  }

  /** What `revise_itinerary` does once the policy allows it. */
  function ApplyItineraryRevision(r: Reservation, itinerary: Itinerary): (Reservation, Option<ReservationRevisedV1>) {
    match r
    case Confirmed(id, journey, contact, passengers, current, revisions) =>
      if !Equivalent(current, itinerary) then
        (Confirmed(id, journey, contact, passengers, itinerary, [CurrentRevision(r)] + revisions),
         Some(ReservationRevisedV1(id, journey, passengers, itinerary)))
      else (r, None)
    case Cancelled(_, _, _, _, _) => (r, None)
  }

  /**
   * `revise_itinerary`: a Cancelled reservation cannot be revised; a Confirmed
   * one only while both its current and the new itinerary are in the revision
   * period. An itinerary not equivalent to the current one records the old
   * state as a revision (the version grows by one) and emits an event; an
   * equivalent one changes nothing.
   */
  function ReviseItinerary(r: Reservation, policy: ReservationPolicy, itinerary: Itinerary, now: int)
    : (result: Result<(Reservation, Option<ReservationRevisedV1>), ReservationPolicyError>)
    requires Valid(r) && |itinerary| > 0
    ensures r.Cancelled? ==> result == Err(ReservationIsAlreadyCancelled)
    ensures r.Confirmed? ==> (result.Err? <==>
      !(WithinRevisionPeriod(policy, r.itinerary, DateNaive(Utc(now))) && WithinRevisionPeriod(policy, itinerary, DateNaive(Utc(now)))))
    ensures r.Confirmed? && result.Err? ==> result.error == NotAllowedToReviseReservationAnymore
    ensures result.Ok? && Equivalent(r.itinerary, itinerary) ==> result.value == (r, None)
    ensures result.Ok? && !Equivalent(r.itinerary, itinerary) ==>
      var (after, event) := result.value;
      after.Confirmed? && after.id == r.id && after.journey == r.journey && after.contact == r.contact
      && after.passengers == r.passengers && after.itinerary == itinerary
      && after.revisions == [Revision(Version(r), r.passengers, r.itinerary)] + r.revisions
      && Version(after) == Version(r) + 1 && Valid(after)
      && event == Some(ReservationRevisedV1(r.id, r.journey, r.passengers, itinerary))
  {
    RecordRevisionKeepsValid(r);
    RevisePolicy(policy, r, itinerary, DateNaive(Utc(now)), ApplyItineraryRevision)
  }

  /** What `revise_passengers` does once the policy allows it. */
  function ApplyPassengersRevision(r: Reservation, passengers: Passengers): (Reservation, Option<ReservationRevisedV1>) {
    match r
    case Confirmed(id, journey, contact, current, itinerary, revisions) =>
      if !PassengerLists.Equal(current, passengers) then
        (Confirmed(id, journey, contact, passengers, PlannedForm(itinerary), [CurrentRevision(r)] + revisions),
         Some(ReservationRevisedV1(id, journey, passengers, PlannedForm(itinerary))))
      else (r, None)
    case Cancelled(_, _, _, _, _) => (r, None)
  }

  /**
   * `revise_passengers`: allowed on a Confirmed reservation in the revision
   * period. Different passengers record the old state as a revision and put
   * every stage of the itinerary back to Planned (the flights must be
   * reserved again for the new party); equal passengers change nothing.
   */
  function RevisePassengers(r: Reservation, policy: ReservationPolicy, passengers: Passengers, now: int)
    : (result: Result<(Reservation, Option<ReservationRevisedV1>), ReservationPolicyError>)
    requires Valid(r)
    ensures r.Cancelled? ==> result == Err(ReservationIsAlreadyCancelled)
    ensures r.Confirmed? ==> (result.Err? <==> !WithinRevisionPeriod(policy, r.itinerary, DateNaive(Utc(now))))
    ensures r.Confirmed? && result.Err? ==> result.error == NotAllowedToReviseReservationAnymore
    ensures result.Ok? && PassengerLists.Equal(r.passengers, passengers) ==> result.value == (r, None)
    ensures result.Ok? && !PassengerLists.Equal(r.passengers, passengers) ==>
      var (after, event) := result.value;
      after.Confirmed? && after.id == r.id && after.journey == r.journey && after.contact == r.contact
      && after.passengers == passengers && after.itinerary == PlannedForm(r.itinerary)
      && IsPlanned(after.itinerary) && Equivalent(after.itinerary, r.itinerary)
      && after.revisions == [Revision(Version(r), r.passengers, r.itinerary)] + r.revisions
      && Version(after) == Version(r) + 1 && Valid(after)
      && event == Some(ReservationRevisedV1(r.id, r.journey, passengers, PlannedForm(r.itinerary)))
  {
    RecordRevisionKeepsValid(r);
    PlannedItineraryFacts(r);
    RevisePassengersPolicy(policy, r, passengers, DateNaive(Utc(now)), ApplyPassengersRevision)
  }

  /** What `cancel` does once the policy allows it; `time` is the moment of cancelling. */
  function ApplyCancellation(r: Reservation, time: DateTime): (Reservation, Option<ReservationCancelledV1>) {
    match r
    case Confirmed(id, journey, contact, passengers, itinerary, revisions) =>
      (Cancelled(id, journey, contact, time, [CurrentRevision(r)] + revisions),
       Some(ReservationCancelledV1(id, journey, contact)))
    case Cancelled(_, _, _, _, _) => (r, None)
  }

  /**
   * `cancel`: a Confirmed reservation in the cancellation period becomes
   * Cancelled with the same id, journey and contact, one more revision (its
   * last passengers and itinerary) and the time of cancelling.
   */
  function Cancel(r: Reservation, policy: ReservationPolicy, now: int)
    : (result: Result<(Reservation, Option<ReservationCancelledV1>), ReservationPolicyError>)
    requires Valid(r)
    ensures r.Cancelled? ==> result == Err(ReservationIsAlreadyCancelled)
    ensures r.Confirmed? ==> (result.Err? <==> !WithinCancellationPeriod(policy, r.itinerary, DateNaive(Utc(now))))
    ensures r.Confirmed? && result.Err? ==> result.error == NotAllowedToCancelReservationAnymore
    ensures result.Ok? ==>
      var (after, event) := result.value;
      after.Cancelled? && after.id == r.id && after.journey == r.journey && after.contact == r.contact
      && after.time == Utc(now)
      && after.revisions == [Revision(Version(r), r.passengers, r.itinerary)] + r.revisions
      && Version(after) == Version(r) + 1 && Valid(after)
      && event == Some(ReservationCancelledV1(r.id, r.journey, r.contact))
  {
    RecordRevisionKeepsValid(r);
    CancelPolicy(policy, r, DateNaive(Utc(now)), (r: Reservation) => ApplyCancellation(r, Utc(now)))
  }

  /**
   * The life of a reservation under a policy that allows everything: it
   * starts at version 0, and a passenger change, an itinerary change and the
   * cancellation each raise the version by one.
   */
  lemma VersionsAlongALifetime(now: int, id: ReservationId, journey: JourneyId, contact: Contact,
                               arrangement: PassengerArrangement, itinerary: Itinerary,
                               passengers: Passengers, itinerary2: Itinerary)
    requires |itinerary| > 0 && |itinerary2| > 0
    requires DaysBeforeDeparture(itinerary, DateNaive(Utc(now))) >= DAYS_MIN
    requires DaysBeforeDeparture(itinerary2, DateNaive(Utc(now))) >= DAYS_MIN
    requires !PassengerLists.Equal(Arrangement(arrangement), passengers)
    requires !Equivalent(itinerary, itinerary2)
    ensures var policy := ReservationPolicy(DAYS_MIN, DAYS_MIN);
      var r0 := NewConfirmed(policy, now, id, journey, contact, arrangement, itinerary);
      r0.Ok? && Version(r0.value.0) == 0
      && var r1 := RevisePassengers(r0.value.0, policy, passengers, now);
      r1.Ok? && Version(r1.value.0) == 1 && r1.value.1.Some?
      && var r2 := ReviseItinerary(r1.value.0, policy, itinerary2, now);
      r2.Ok? && Version(r2.value.0) == 2 && r2.value.1.Some?
      && var r3 := Cancel(r2.value.0, policy, now);
      r3.Ok? && Version(r3.value.0) == 3 && r3.value.1.Some?
  {
    var policy := ReservationPolicy(DAYS_MIN, DAYS_MIN);
    var today := DateNaive(Utc(now));
    MinimalPolicyAllowsAll(itinerary, today);
    MinimalPolicyAllowsAll(itinerary2, today);
    var r1 := RevisePassengers(NewConfirmed(policy, now, id, journey, contact, arrangement, itinerary).value.0, policy, passengers, now);
    PlannedFormProperties(itinerary);
    assert DepartureDate(PlannedForm(itinerary)) == DepartureDate(itinerary);
    MinimalPolicyAllowsAll(r1.value.0.itinerary, today);
    assert !Equivalent(PlannedForm(itinerary), itinerary2);
  }
}
