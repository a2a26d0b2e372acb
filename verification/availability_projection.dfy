/**
 * The availability read model of one month: for every flight route (keyed
 * "DEP-ARR") the latest known seat availability of each of its flights. It
 * is updated in place by the events it is fed.
 */
module AvailabilityProjection {
  import opened MachineInts
  import opened Chrono
  import opened FlightRoutes
  import opened FlightAvailabilities

  /** `YearMonth`: the period the projection covers (year, month number). */
  datatype YearMonth = YearMonth(year: int, month: int)

  /** The reservation events as far as this projection is concerned; every other variant is ignored. */
  datatype Event = FlightAvailabilityChanged(changed: FlightAvailabilityChangedV1) | OtherEvent

  /** One flight of a route: its id, times and seats left. Entries are equal, and hashed, by id only. */
  datatype Entry = Entry(id: string, departure: DateTime, arrival: DateTime, seatsAvailable: U8)

  /** `FlightRoute::from_aggregate`: the key "DEP-ARR". */
  function RouteKey(route: FlightRoute): string {
    route.departure + "-" + route.arrival
  }

  /** The position of the first '-' in s, or |s| when there is none. */
  function DashIndex(s: string): nat
    decreases |s|
  {
    if |s| == 0 then 0 else if s[0] == '-' then 0 else 1 + DashIndex(s[1..])
  }

  lemma {:induction false} DashIndexOfKey(departure: string, arrival: string)
    requires '-' !in departure
    ensures DashIndex(departure + "-" + arrival) == |departure|
    decreases |departure|
  {
    if |departure| > 0 {
      assert (departure + "-" + arrival)[1..] == departure[1..] + "-" + arrival;
      DashIndexOfKey(departure[1..], arrival);
    }
  }

  /**
   * Route keys do not collide: two routes whose departures contain no '-'
   * (airfield ids are ICAO codes) have the same key only when they are the
   * same route.
   */
  lemma RouteKeyInjective(a: FlightRoute, b: FlightRoute)
    requires '-' !in a.departure && '-' !in b.departure
    ensures RouteKey(a) == RouteKey(b) ==> a == b
  {
    if RouteKey(a) == RouteKey(b) {
      var k := RouteKey(a);
      DashIndexOfKey(a.departure, a.arrival);
      DashIndexOfKey(b.departure, b.arrival);
      assert a.departure == k[..|a.departure|] == b.departure;
      assert a.arrival == k[|a.departure| + 1..] == b.arrival;
    }
  }

  /** The entry an availability change describes. */
  function EntryOf(changed: FlightAvailabilityChangedV1): Entry {
    Entry(changed.flight, changed.departure, changed.arrival, changed.seatsAvailable)
  }

  /** Every route's flights are stored under their own ids: the map plays the id-keyed hash set. */
  predicate KeyedById(flights: map<string, map<string, Entry>>) {
    forall route :: route in flights ==> forall id :: id in flights[route] ==> flights[route][id].id == id
  }

  /** The flights after an event: a change replaces or adds its flight's entry under its route; anything else changes nothing. */
  function Applied(flights: map<string, map<string, Entry>>, event: Event): map<string, map<string, Entry>> {
    match event
    case FlightAvailabilityChanged(changed) =>
      var route := RouteKey(changed.route);
      var entries := if route in flights then flights[route] else map[];
      flights[route := entries[changed.flight := EntryOf(changed)]]
    case OtherEvent => flights
  }

  /**
   * An availability change leaves its route with exactly its flight's new
   * entry (added or replacing the old one, one entry per id) and every other
   * flight and route as it was; ignored events change nothing; and applying
   * the same event twice is applying it once.
   */
  lemma AppliedUpserts(flights: map<string, map<string, Entry>>, event: Event)
    requires KeyedById(flights)
    ensures KeyedById(Applied(flights, event))
    ensures event.OtherEvent? ==> Applied(flights, event) == flights
    ensures event.FlightAvailabilityChanged? ==>
      var route, id := RouteKey(event.changed.route), event.changed.flight;
      var after := Applied(flights, event);
      route in after && id in after[route] && after[route][id] == EntryOf(event.changed)
      && (forall other :: other in flights && other != route ==> other in after && after[other] == flights[other])
      && (forall other :: other in after ==> other in flights || other == route)
      && (forall f :: f in after[route] && f != id ==> route in flights && f in flights[route] && after[route][f] == flights[route][f])
      && (route in flights ==> forall f :: f in flights[route] ==> f in after[route])
      && |after[route]| <= (if route in flights then |flights[route]| else 0) + 1
    ensures Applied(Applied(flights, event), event) == Applied(flights, event)
  {
    if event.FlightAvailabilityChanged? {
      var route, id := RouteKey(event.changed.route), event.changed.flight;
      var entries: map<string, Entry> := if route in flights then flights[route] else map[];
      assert Applied(flights, event)[route] == entries[id := EntryOf(event.changed)];
      if id in entries {
        assert entries[id := EntryOf(event.changed)].Keys == entries.Keys;
      } else {
        assert entries[id := EntryOf(event.changed)].Keys == entries.Keys + {id};
      }
      var once := Applied(flights, event);
      assert once[route][id := EntryOf(event.changed)] == once[route];
      assert once[route := once[route]] == once;
    }
  }

  /** `Availability`: the period it covers and the flights per route key. */
  class Availability {
    var period: YearMonth
    var flights: map<string, map<string, Entry>>

    predicate Valid()
      reads this
    {
      KeyedById(flights)
    }

    /** `from_period`: nothing known yet. */
    constructor FromPeriod(period: YearMonth)
      ensures this.period == period && flights == map[] && Valid()
    {
      this.period := period;
      flights := map[];
    }

    /** `apply`: upserts the changed flight under its route (`entry().and_modify().or_insert()`); the period never changes. */
    method Apply(event: Event)
      requires Valid()
      modifies this
      ensures Valid()
      ensures period == old(period)
      ensures flights == Applied(old(flights), event)
    {
      AppliedUpserts(flights, event);
      match event {
        case FlightAvailabilityChanged(changed) =>
          var route := RouteKey(changed.route);
          var availability := EntryOf(changed);
          if route in flights {
            flights := flights[route := flights[route][availability.id := availability]];
          } else {
            flights := flights[route := map[availability.id := availability]];
          }
        case OtherEvent =>
      }
    }
  }
}
