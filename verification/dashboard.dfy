/**
 * The scheduling dashboard: the lists of airfields, airships and flights the
 * back office shows. Every event replaces the entry with its id, if any, by
 * the new one, which goes to the end of its list.
 */
module Dashboards {
  import opened MachineInts
  import opened SchedulingFlights

  datatype AirfieldEntry = AirfieldEntry(id: string, name: string, location: string)

  datatype AirshipEntry = AirshipEntry(id: string, name: string, model: string, numberOfSeats: U8)

  datatype FlightEntry = FlightEntry(id: string, departure: Endpoint, arrival: Endpoint, airship: string)

  function AirfieldKey(a: AirfieldEntry): string { a.id }
  function AirshipKey(a: AirshipEntry): string { a.id }
  function FlightKey(f: FlightEntry): string { f.id }

  /** `Vec::retain`: the elements that satisfy `keep`, in their order. */
  function Retain<T(==,!new)>(s: seq<T>, keep: T -> bool): (r: seq<T>)
    ensures |r| <= |s|
    ensures forall x :: x in r <==> x in s && keep(x)
  {
    if |s| == 0 then []
    else (if keep(s[0]) then [s[0]] else []) + Retain(s[1..], keep)
  }

  lemma {:induction false} RetainAppend<T(!new)>(a: seq<T>, b: seq<T>, keep: T -> bool)
    ensures Retain(a + b, keep) == Retain(a, keep) + Retain(b, keep)
    decreases |a|
  {
    if |a| == 0 {
      assert a + b == b;
    } else {
      assert (a + b)[1..] == a[1..] + b;
      RetainAppend(a[1..], b, keep);
    }
  }

  /** Retaining what already satisfies `keep` keeps everything. */
  lemma {:induction false} RetainAll<T(!new)>(s: seq<T>, keep: T -> bool)
    requires forall x :: x in s ==> keep(x)
    ensures Retain(s, keep) == s
    decreases |s|
  {
    if |s| > 0 {
      assert s[0] in s;
      forall x | x in s[1..] ensures keep(x) {
        assert x in s;
      }
      RetainAll(s[1..], keep);
    }
  }

  /** No two elements of s share a key. */
  predicate UniqueKeys<T>(s: seq<T>, key: T -> string) {
    forall i, j :: 0 <= i < j < |s| ==> key(s[i]) != key(s[j])
  }

  lemma {:induction false} RetainUnique<T(!new)>(s: seq<T>, keep: T -> bool, key: T -> string)
    requires UniqueKeys(s, key)
    ensures UniqueKeys(Retain(s, keep), key)
    decreases |s|
  {
    if |s| > 0 {
      var rest := Retain(s[1..], keep);
      RetainUnique(s[1..], keep, key);
      if keep(s[0]) {
        var r := [s[0]] + rest;
        forall i, j | 0 <= i < j < |r| ensures key(r[i]) != key(r[j]) {
          if i == 0 {
            assert r[j] in rest;
            assert r[j] in s[1..];
            var k :| 0 <= k < |s[1..]| && s[1..][k] == r[j];
            assert s[k + 1] == r[j];
          } else {
            assert r[i] == rest[i - 1] && r[j] == rest[j - 1];
          }
        }
      }
    }
  }

  /** Remove every element with e's key, then append e: the dashboard's upsert. */
  function Upsert<T(==,!new)>(s: seq<T>, key: T -> string, e: T): seq<T> {
    Retain(s, x => key(x) != key(e)) + [e]
  }

  /**
   * After an upsert the new element is last and is the only one with its
   * key; every element with another key is still there, nothing else is
   * added; keys stay unique; and upserting the same element again changes
   * nothing.
   */
  lemma UpsertReplaces<T(!new)>(s: seq<T>, key: T -> string, e: T)
    ensures var r := Upsert(s, key, e);
      |r| > 0 && r[|r| - 1] == e
      && (forall x :: x in r && key(x) == key(e) ==> x == e)
      && (forall x :: x in s && key(x) != key(e) ==> x in r)
      && (forall x :: x in r ==> x == e || (x in s && key(x) != key(e)))
      && |r| <= |s| + 1
    ensures UniqueKeys(s, key) ==> UniqueKeys(Upsert(s, key, e), key)
    ensures Upsert(Upsert(s, key, e), key, e) == Upsert(s, key, e)
  {
    var keep := x => key(x) != key(e);
    var kept := Retain(s, keep);
    var r := kept + [e];
    assert r == Upsert(s, key, e);
    if UniqueKeys(s, key) {
      RetainUnique(s, keep, key);
      forall i, j | 0 <= i < j < |r| ensures key(r[i]) != key(r[j]) {
        if j == |r| - 1 {
          assert r[i] in kept;
        } else {
          assert r[i] == kept[i] && r[j] == kept[j];
        }
      }
    }
    RetainAppend(kept, [e], keep);
    RetainAll(kept, keep);
    assert Retain([e], keep) == [];
  }

  function AirfieldEntryOf(event: AirfieldRegisteredV1): AirfieldEntry {
    AirfieldEntry(event.id, event.name, event.location)
  }

  function AirshipEntryOf(event: AirshipAddedToFleetV1): AirshipEntry {
    AirshipEntry(event.id, event.name, event.model, event.numberOfSeats)
  }

  function FlightEntryOf(event: FlightScheduledV1): FlightEntry {
    FlightEntry(event.id, event.departure, event.arrival, event.airship.id)
  }

  /** `Dashboard`: the three lists, updated in place by `apply`. */
  class Dashboard {
    var airfields: seq<AirfieldEntry>
    var airships: seq<AirshipEntry>
    var flights: seq<FlightEntry>

    /** Each list holds at most one entry per id. */
    predicate Valid()
      reads this
    {
      UniqueKeys(airfields, AirfieldKey) && UniqueKeys(airships, AirshipKey) && UniqueKeys(flights, FlightKey)
    }

    /** `Default`: three empty lists. */
    constructor ()
      ensures airfields == [] && airships == [] && flights == [] && Valid()
    {
      airfields, airships, flights := [], [], [];
    }

    /**
     * `apply`: the event's entry replaces any entry with the same id in its
     * own list and goes last; the other two lists are untouched.
     */
    method Apply(event: Event)
      requires Valid()
      modifies this
      ensures Valid()
      ensures event.AirfieldRegistered? ==>
        airfields == Upsert(old(airfields), AirfieldKey, AirfieldEntryOf(event.airfield))
        && airships == old(airships) && flights == old(flights)
      ensures event.AirshipAddedToFleet? ==>
        airships == Upsert(old(airships), AirshipKey, AirshipEntryOf(event.airship))
        && airfields == old(airfields) && flights == old(flights)
      ensures event.FlightScheduled? ==>
        flights == Upsert(old(flights), FlightKey, FlightEntryOf(event.flight))
        && airfields == old(airfields) && airships == old(airships)
    {
      match event {
        case AirfieldRegistered(e) =>
          var airfield := AirfieldEntryOf(e);
          UpsertReplaces(airfields, AirfieldKey, airfield);
          airfields := Upsert(airfields, AirfieldKey, airfield);
        case AirshipAddedToFleet(e) =>
          var airship := AirshipEntryOf(e);
          UpsertReplaces(airships, AirshipKey, airship);
          airships := Upsert(airships, AirshipKey, airship);
        case FlightScheduled(e) =>
          var flight := FlightEntryOf(e);
          UpsertReplaces(flights, FlightKey, flight);
          flights := Upsert(flights, FlightKey, flight);
      }
    }
  }
}
