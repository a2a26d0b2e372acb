/**
 * The seats of one flight and the reservations holding them: one entry per
 * reserved seat, carrying the id of the reservation that holds it.
 */
module FlightAvailabilities {
  import opened Wrappers
  import opened MachineInts
  import opened Chrono
  import opened FlightRoutes
  import opened Flights

  type ReservationId = string

  datatype FlightAvailability = FlightAvailability(flight: Flight, seatReservations: seq<ReservationId>)

  datatype AvailabilityFlightError = InsufficientSeats

  datatype FlightAvailabilityChangedV1 = FlightAvailabilityChangedV1(
    flight: FlightId, route: FlightRoute, departure: DateTime, arrival: DateTime, seatsAvailable: U8)

  /** The flight is never overbooked. */
  predicate Valid(a: FlightAvailability) {
    |a.seatReservations| <= a.flight.seats
  }

  /** `seats_available`: the flight's seats minus the seats held. */
  function SeatsAvailable(a: FlightAvailability): (s: U8)
    requires Valid(a)
    ensures s as int + |a.seatReservations| == a.flight.seats as int
  {
    a.flight.seats - AsU8(|a.seatReservations|)
  }

  /** The event reporting the flight and the seats it has left. */
  function ChangedEvent(a: FlightAvailability): FlightAvailabilityChangedV1
    requires Valid(a)
  {
    FlightAvailabilityChangedV1(a.flight.id, a.flight.route, a.flight.departure, a.flight.arrival, SeatsAvailable(a))
  }

  /** `from_flight`: no seat is held, so every seat of the flight is available. */
  function FromFlight(flight: Flight): (r: (FlightAvailability, FlightAvailabilityChangedV1))
    ensures Valid(r.0) && r.0.flight == flight && SeatsAvailable(r.0) == flight.seats
    ensures r.1.flight == flight.id && r.1.route == flight.route && r.1.seatsAvailable == flight.seats
  {
    var availability := FlightAvailability(flight, []);
    (availability, ChangedEvent(availability))
  }

  /** The entries not held by `id`, in order. */
  function Without(s: seq<ReservationId>, id: ReservationId): (r: seq<ReservationId>)
    ensures |r| <= |s|
    ensures id !in r
    ensures forall x :: x in r <==> x in s && x != id
  {
    if s == [] then [] else (if s[0] == id then [] else [s[0]]) + Without(s[1..], id)
  }

  function Repeat(id: ReservationId, n: nat): (r: seq<ReservationId>)
    ensures |r| == n && forall i :: 0 <= i < n ==> r[i] == id
  {
    seq(n, _ => id)
  }

  /** How many entries are held by `id`. */
  function Held(s: seq<ReservationId>, id: ReservationId): nat {
    if s == [] then 0 else (if s[0] == id then 1 else 0) + Held(s[1..], id)
  }

  /**
   * `reserve`: the reservation's seat count is set, not added to. Its earlier
   * entries are dropped, and if the seats left by the other reservations
   * suffice, `seats` entries for it are appended; otherwise InsufficientSeats.
   */
  function Reserve(a: FlightAvailability, id: ReservationId, seats: U8)
    : (r: Result<(FlightAvailability, FlightAvailabilityChangedV1), AvailabilityFlightError>)
    requires Valid(a)
    ensures r.Err? <==> seats > a.flight.seats - |Without(a.seatReservations, id)|
    ensures r.Ok? ==> var (after, event) := r.value;
      Valid(after) && after.flight == a.flight
      && after.seatReservations == Without(a.seatReservations, id) + Repeat(id, seats)
      && SeatsAvailable(after) == a.flight.seats - |Without(a.seatReservations, id)| - seats
      && event == ChangedEvent(after)
  {
    var reserved := Without(a.seatReservations, id);
    var available := a.flight.seats - AsU8(|reserved|);
    if available >= seats then
      var after := FlightAvailability(a.flight, reserved + Repeat(id, seats));
      Ok((after, ChangedEvent(after)))
    else
      Err(InsufficientSeats)
  }

  lemma {:induction false} HeldWithout(s: seq<ReservationId>, id: ReservationId, other: ReservationId)
    ensures Held(Without(s, id), id) == 0
    ensures other != id ==> Held(Without(s, id), other) == Held(s, other)
  {
    if s != [] {
      HeldWithout(s[1..], id, other);
      HeldAppend((if s[0] == id then [] else [s[0]]), Without(s[1..], id), id);
      HeldAppend((if s[0] == id then [] else [s[0]]), Without(s[1..], id), other);
    }
  }

  lemma {:induction false} HeldAppend(s: seq<ReservationId>, t: seq<ReservationId>, x: ReservationId)
    ensures Held(s + t, x) == Held(s, x) + Held(t, x)
  {
    if s != [] {
      assert (s + t)[1..] == s[1..] + t;
      HeldAppend(s[1..], t, x);
    } else {
      assert s + t == t;
    }
  }

  lemma {:induction false} HeldRepeat(id: ReservationId, n: nat, x: ReservationId)
    ensures Held(Repeat(id, n), x) == if x == id then n else 0
  {
    if n > 0 {
      assert Repeat(id, n)[1..] == Repeat(id, n - 1);
      HeldRepeat(id, n - 1, x);
    }
  }

  lemma {:induction false} WithoutAbsent(s: seq<ReservationId>, id: ReservationId)
    requires id !in s
    ensures Without(s, id) == s
  {
    if s != [] {
      WithoutAbsent(s[1..], id);
    }
  }

  lemma {:induction false} WithoutAppend(s: seq<ReservationId>, t: seq<ReservationId>, id: ReservationId)
    ensures Without(s + t, id) == Without(s, id) + Without(t, id)
  {
    if s != [] {
      assert (s + t)[1..] == s[1..] + t;
      WithoutAppend(s[1..], t, id);
    } else {
      assert s + t == t;
    }
  }

  lemma {:induction false} WithoutRepeat(id: ReservationId, n: nat)
    ensures Without(Repeat(id, n), id) == []
  {
    if n > 0 {
      assert Repeat(id, n)[1..] == Repeat(id, n - 1);
      WithoutRepeat(id, n - 1);
    }
  }

  /**
   * After a successful `reserve`, the reservation holds exactly `seats`
   * seats and every other reservation holds what it held before; reserving
   * 0 seats releases the reservation's seats entirely.
   */
  lemma ReserveIsAbsolute(a: FlightAvailability, id: ReservationId, seats: U8, other: ReservationId)
    requires Valid(a) && Reserve(a, id, seats).Ok?
    ensures Held(Reserve(a, id, seats).value.0.seatReservations, id) == seats
    ensures other != id ==> Held(Reserve(a, id, seats).value.0.seatReservations, other) == Held(a.seatReservations, other)
    ensures seats == 0 ==> Reserve(a, id, seats).value.0.seatReservations == Without(a.seatReservations, id)
  {
    var reserved := Without(a.seatReservations, id);
    HeldAppend(reserved, Repeat(id, seats), id);
    HeldAppend(reserved, Repeat(id, seats), other);
    HeldWithout(a.seatReservations, id, other);
    HeldRepeat(id, seats, id);
    HeldRepeat(id, seats, other);
    assert reserved + Repeat(id, 0) == reserved;
  }

  /** Reserving again with the same id and seat count leaves the availability as it was. */
  lemma ReserveIsIdempotent(a: FlightAvailability, id: ReservationId, seats: U8)
    requires Valid(a) && Reserve(a, id, seats).Ok?
    ensures Reserve(Reserve(a, id, seats).value.0, id, seats) == Reserve(a, id, seats)
  {
    var reserved := Without(a.seatReservations, id);
    WithoutAppend(reserved, Repeat(id, seats), id);
    WithoutAbsent(reserved, id);
    WithoutRepeat(id, seats);
    assert reserved + [] == reserved;
  }

  /**
   * The sequence of `flight_availability.rs`'s tests on a 10-seat flight:
   * 4 seats leave 6; 255 seats fail; asking again for 4 still leaves 6;
   * changing to 6 leaves 4; changing to 0 leaves 10.
   */
  lemma ReserveExamples(flight: Flight, id: ReservationId)
    requires flight.seats == 10
    ensures var a0 := FromFlight(flight).0;
      SeatsAvailable(a0) == 10
      && Reserve(a0, id, 255) == Err(InsufficientSeats)
      && var a1 := Reserve(a0, id, 4).value.0;
      SeatsAvailable(a1) == 6
      && SeatsAvailable(Reserve(a1, id, 4).value.0) == 6
      && var a2 := Reserve(a1, id, 6).value.0;
      SeatsAvailable(a2) == 4
      && SeatsAvailable(Reserve(a2, id, 0).value.0) == 10
  {
    var a0 := FromFlight(flight).0;
    assert Without([], id) == [];
    var a1 := Reserve(a0, id, 4).value.0;
    ReserveIsIdempotent(a0, id, 4);
    WithoutAppend([], Repeat(id, 4), id);
    WithoutRepeat(id, 4);
    var a2 := Reserve(a1, id, 6).value.0;
    assert a2.seatReservations == [] + Repeat(id, 6);
    WithoutAppend([], Repeat(id, 6), id);
    WithoutRepeat(id, 6);
  }
}
