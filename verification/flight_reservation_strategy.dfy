/**
 * The saga step of the reservation process: `next_request` compares a
 * reservation with its target state (every stage of the current itinerary
 * reserved, every stage of every earlier revision annulled) and picks the
 * single next flight reservation request towards it.
 */
module FlightReservationStrategy {
  import opened Wrappers
  import opened MachineInts
  import Transactions
  import opened Flights
  import opened Itineraries
  import opened PassengerLists
  import opened ReservationAggregate

  /** The request to the flight availability: hold `seats` seats of `flight` for this reservation version (0 releases them). */
  datatype FlightReservationRequestedV1 = FlightReservationRequestedV1(
    reservation: Transactions.Versioned<ReservationId>, flight: FlightId, seats: U8)

  /** A stage of the current itinerary still needs a reservation when it is Planned or Annulled. */
  predicate NeedsReservation(s: Status) {
    s.Planned? || s.Annulled?
  }

  /** A stage of an earlier revision still needs an annulment unless it is Annulled. */
  predicate NeedsAnnulment(s: Status) {
    !s.Annulled?
  }

  /** The position of the first stage whose status satisfies `p`, or `|it|` if there is none. */
  function FirstWhere(it: Itinerary, p: Status -> bool): (k: nat)
    ensures k <= |it|
    ensures k < |it| ==> p(it[k].status)
    ensures forall j :: 0 <= j < k ==> !p(it[j].status)
    decreases |it|
  {
    if |it| == 0 then 0
    else if p(it[0].status) then 0
    else
      var k := 1 + FirstWhere(it[1..], p);
      assert forall j :: 1 <= j < k ==> it[j] == it[1..][j - 1];
      k
  }

  /** `next_reserved`: a request for the first stage of the current itinerary that needs a reservation. */
  function NextReserved(id: ReservationId, version: nat, it: Itinerary, passengers: Passengers)
    : (r: Option<FlightReservationRequestedV1>)
    ensures r.None? <==> forall i :: 0 <= i < |it| ==> !NeedsReservation(it[i].status)
    ensures r.Some? ==> exists k :: (0 <= k < |it| && NeedsReservation(it[k].status)
      && (forall j :: 0 <= j < k ==> !NeedsReservation(it[j].status))
      && r.value == FlightReservationRequestedV1(Transactions.Versioned(id, version), it[k].flight.id, Count(passengers)))
  {
    var k := FirstWhere(it, NeedsReservation);
    if k < |it| then Some(FlightReservationRequestedV1(Transactions.Versioned(id, version), it[k].flight.id, Count(passengers)))
    else None
  }

  /** Every stage of every revision is Annulled. */
  predicate AllAnnulled(revs: seq<Revision>) {
    forall a, i :: 0 <= a < |revs| && 0 <= i < |revs[a].itinerary| ==> revs[a].itinerary[i].status.Annulled?
  }

  /**
   * Stage i of revision a is the first stage, in the order revisions then
   * stages, that is not Annulled.
   */
  predicate FirstUnannulled(revs: seq<Revision>, a: int, i: int) {
    0 <= a < |revs| && 0 <= i < |revs[a].itinerary| && NeedsAnnulment(revs[a].itinerary[i].status)
    && (forall b, j :: 0 <= b < a && 0 <= j < |revs[b].itinerary| ==> !NeedsAnnulment(revs[b].itinerary[j].status))
    && (forall j :: 0 <= j < i ==> !NeedsAnnulment(revs[a].itinerary[j].status))
  }

  /**
   * `next_annulment`: a request releasing the seats of the first stage, across
   * the revisions in order (newest first), that is not Annulled yet; it names
   * the version of the revision the stage belongs to.
   */
  function NextAnnulment(id: ReservationId, revs: seq<Revision>): (r: Option<FlightReservationRequestedV1>)
    ensures r.None? <==> AllAnnulled(revs)
    ensures r.Some? ==> exists a, i :: (FirstUnannulled(revs, a, i)
      && r.value == FlightReservationRequestedV1(Transactions.Versioned(id, revs[a].version), revs[a].itinerary[i].flight.id, 0))
    decreases |revs|
  {
    if |revs| == 0 then None
    else
      var k := FirstWhere(revs[0].itinerary, NeedsAnnulment);
      if k < |revs[0].itinerary| then
        assert FirstUnannulled(revs, 0, k);
        Some(FlightReservationRequestedV1(Transactions.Versioned(id, revs[0].version), revs[0].itinerary[k].flight.id, 0))
      else
        var rest := NextAnnulment(id, revs[1..]);
        assert forall a :: 1 <= a < |revs| ==> revs[a] == revs[1..][a - 1];
        if rest.Some? then
          var a, i :| FirstUnannulled(revs[1..], a, i)
            && rest.value == FlightReservationRequestedV1(Transactions.Versioned(id, revs[1..][a].version), revs[1..][a].itinerary[i].flight.id, 0);
          assert FirstUnannulled(revs, a + 1, i);
          rest
        else
          assert AllAnnulled(revs) by {
            forall b, j | 0 <= b < |revs| && 0 <= j < |revs[b].itinerary|
              ensures revs[b].itinerary[j].status.Annulled?
            {
              if b > 0 {
                assert revs[b] == revs[1..][b - 1];
              }
            }
          }
          rest
  }

  /**
   * The target state: the current itinerary (of a Confirmed reservation) is
   * all Reserved or ReservedFailed, and every revision is all Annulled.
   */
  predicate Settled(r: Reservation) {
    (r.Confirmed? ==> forall i :: 0 <= i < |r.itinerary| ==> !NeedsReservation(r.itinerary[i].status))
    && AllAnnulled(r.revisions)
  }

  /**
   * `next_request`: a Confirmed reservation first gets its current stages
   * reserved, at its current version and for its whole party; only then are
   * the stages of earlier revisions annulled. A Cancelled reservation only
   * gets annulments. There is no request exactly when the reservation is
   * settled.
   */
  function NextRequest(r: Reservation): (req: Option<FlightReservationRequestedV1>)
    ensures req.None? <==> Settled(r)
    ensures req.Some? ==> req.value.reservation.value == r.id
    ensures r.Confirmed? && (exists i :: 0 <= i < |r.itinerary| && NeedsReservation(r.itinerary[i].status)) ==>
      req.Some? && req.value.reservation.version == Version(r) && req.value.seats == Count(r.passengers)
      && exists k :: (0 <= k < |r.itinerary| && NeedsReservation(r.itinerary[k].status)
           && (forall j :: 0 <= j < k ==> !NeedsReservation(r.itinerary[j].status))
           && req.value.flight == r.itinerary[k].flight.id)
    ensures (r.Cancelled? || forall i :: 0 <= i < |r.itinerary| ==> !NeedsReservation(r.itinerary[i].status)) ==>
      (req.Some? ==> (req.value.seats == 0
        && exists a, i :: (FirstUnannulled(r.revisions, a, i)
           && req.value.reservation.version == r.revisions[a].version
           && req.value.flight == r.revisions[a].itinerary[i].flight.id)))
  {
    match r
    case Confirmed(id, _, _, passengers, itinerary, revisions) =>
      var reserved := NextReserved(id, Version(r), itinerary, passengers);
      if reserved.Some? then reserved else NextAnnulment(id, revisions)
    case Cancelled(id, _, _, _, revisions) =>
      NextAnnulment(id, revisions)
  }

  /** The number of stages whose status satisfies `p`. */
  function CountWhere(it: Itinerary, p: Status -> bool): nat
    decreases |it|
  {
    if |it| == 0 then 0 else (if p(it[0].status) then 1 else 0) + CountWhere(it[1..], p)
  }

  /** The number of stages of all revisions still to be annulled. */
  function PendingAnnulments(revs: seq<Revision>): nat
    decreases |revs|
  {
    if |revs| == 0 then 0 else CountWhere(revs[0].itinerary, NeedsAnnulment) + PendingAnnulments(revs[1..])
  }

  /** How far a reservation is from being settled: the stages that still need a request. */
  function Pending(r: Reservation): nat {
    (if r.Confirmed? then CountWhere(r.itinerary, NeedsReservation) else 0) + PendingAnnulments(r.revisions)
  }

  lemma {:induction false} CountWhereZero(it: Itinerary, p: Status -> bool)
    ensures CountWhere(it, p) == 0 <==> forall i :: 0 <= i < |it| ==> !p(it[i].status)
    decreases |it|
  {
    if |it| > 0 {
      CountWhereZero(it[1..], p);
      assert forall i :: 1 <= i < |it| ==> it[i] == it[1..][i - 1];
    }
  }

  lemma {:induction false} PendingAnnulmentsZero(revs: seq<Revision>)
    ensures PendingAnnulments(revs) == 0 <==> AllAnnulled(revs)
    decreases |revs|
  {
    if |revs| > 0 {
      CountWhereZero(revs[0].itinerary, NeedsAnnulment);
      PendingAnnulmentsZero(revs[1..]);
      assert forall a :: 1 <= a < |revs| ==> revs[a] == revs[1..][a - 1];
    }
  }

  /** A reservation is settled exactly when nothing is pending, i.e. exactly when `next_request` has nothing to ask. */
  lemma SettledIffNothingPending(r: Reservation)
    ensures Settled(r) <==> Pending(r) == 0
    ensures NextRequest(r).None? <==> Pending(r) == 0
  {
    PendingAnnulmentsZero(r.revisions);
    if r.Confirmed? {
      CountWhereZero(r.itinerary, NeedsReservation);
    }
  }

  /**
   * Marking a flight with a status that `p` does not count never raises the
   * count, and lowers it when a stage of that flight was counted.
   */
  lemma {:induction false} MarkFlightCount(it: Itinerary, flight: FlightId, m: Mark, p: Status -> bool)
    requires !p(MarkedStatus(m))
    ensures CountWhere(MarkFlight(it, flight, m), p) <= CountWhere(it, p)
    ensures (exists k :: 0 <= k < |it| && it[k].flight.id == flight && p(it[k].status)) ==>
      CountWhere(MarkFlight(it, flight, m), p) < CountWhere(it, p)
    decreases |it|
  {
    if |it| > 0 {
      assert MarkFlight(it, flight, m)[1..] == MarkFlight(it[1..], flight, m);
      MarkFlightCount(it[1..], flight, m, p);
      if exists k :: 0 <= k < |it| && it[k].flight.id == flight && p(it[k].status) {
        var k :| 0 <= k < |it| && it[k].flight.id == flight && p(it[k].status);
        if k > 0 {
          assert it[1..][k - 1] == it[k];
        }
      }
    }
  }

  /**
   * Marking a flight across the revisions never raises the number of pending
   * annulments when the mark is an annulment or every revision is older than
   * the marked version.
   */
  lemma {:induction false} MarkRevisionsPending(revs: seq<Revision>, flight: FlightId, version: nat, m: Mark)
    requires m == ToAnnulled || forall a :: 0 <= a < |revs| ==> revs[a].version < version
    ensures PendingAnnulments(MarkRevisions(revs, flight, version, m)) <= PendingAnnulments(revs)
    decreases |revs|
  {
    if |revs| > 0 {
      var marked := MarkRevisions(revs, flight, version, m);
      assert marked[1..] == MarkRevisions(revs[1..], flight, version, m);
      MarkFlightCount(revs[0].itinerary, flight, ToAnnulled, NeedsAnnulment);
      MarkRevisionsPending(revs[1..], flight, version, m);
    }
  }

  /** An annulment that reaches a not-yet-annulled stage of revision a lowers the pending annulments. */
  lemma {:induction false} AnnulRevisionsPending(revs: seq<Revision>, flight: FlightId, version: nat, a: nat, i: nat)
    requires a < |revs| && i < |revs[a].itinerary| && revs[a].version <= version
    requires revs[a].itinerary[i].flight.id == flight && NeedsAnnulment(revs[a].itinerary[i].status)
    ensures PendingAnnulments(MarkRevisions(revs, flight, version, ToAnnulled)) < PendingAnnulments(revs)
    decreases |revs|
  {
    var marked := MarkRevisions(revs, flight, version, ToAnnulled);
    assert marked[1..] == MarkRevisions(revs[1..], flight, version, ToAnnulled);
    if a == 0 {
      MarkFlightCount(revs[0].itinerary, flight, ToAnnulled, NeedsAnnulment);
      MarkRevisionsPending(revs[1..], flight, version, ToAnnulled);
    } else {
      MarkFlightCount(revs[0].itinerary, flight, ToAnnulled, NeedsAnnulment);
      assert revs[1..][a - 1] == revs[a];
      AnnulRevisionsPending(revs[1..], flight, version, a - 1, i);
    }
  }

  /** The reply the saga applies to a request: seats 0 come back as an annulment, other requests as Reserved or ReservedFailed. */
  predicate ReplyMatches(req: FlightReservationRequestedV1, m: Mark) {
    req.seats == 0 <==> m == ToAnnulled
  }

  /**
   * The saga makes progress: applying to a valid reservation the reply to its
   * next request strictly lowers the number of pending stages, so the
   * request/reply loop reaches a settled reservation. A Confirmed reservation
   * must have passengers (every party the domain builds has at least one).
   */
  lemma NextRequestProgress(r: Reservation, m: Mark)
    requires Valid(r) && NextRequest(r).Some?
    requires r.Confirmed? ==> Count(r.passengers) > 0
    requires ReplyMatches(NextRequest(r).value, m)
    ensures var req := NextRequest(r).value;
      Pending(MarkReservationFlight(r, req.flight, req.reservation.version, m)) < Pending(r)
  {
    var req := NextRequest(r).value;
    var after := MarkReservationFlight(r, req.flight, req.reservation.version, m);
    if r.Confirmed? && exists i :: 0 <= i < |r.itinerary| && NeedsReservation(r.itinerary[i].status) {
      assert m != ToAnnulled;
      MarkFlightCount(r.itinerary, req.flight, m, NeedsReservation);
      MarkRevisionsPending(r.revisions, req.flight, req.reservation.version, m);
    } else {
      assert m == ToAnnulled;
      var a, i :| FirstUnannulled(r.revisions, a, i)
        && req.reservation.version == r.revisions[a].version
        && req.flight == r.revisions[a].itinerary[i].flight.id;
      AnnulRevisionsPending(r.revisions, req.flight, req.reservation.version, a, i);
      if r.Confirmed? {
        assert after.itinerary == r.itinerary;
      }
    }
  }
}
