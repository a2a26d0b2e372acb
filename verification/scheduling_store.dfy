/**
 * The scheduling service's durable-object storage: airfields, airships and
 * flights, each kept as a versioned value under "<kind>:<id>", with the same
 * version check on writes as the reservation storage.
 *
 * As written, the flight write reads the stored value back as a versioned
 * flight id rather than a versioned flight. A stored flight never decodes
 * as an id, so every flight write compares against version 0. The
 * as-written response is `RespondAsWritten`; the storage class uses the
 * intended `Respond`.
 */
module SchedulingStore {
  import opened Wrappers
  import opened Transactions
  import opened Repositories
  import opened SchedulingFlights

  datatype Kind = AirfieldKind | AirshipKind | FlightKind

  /** A value the storage holds. */
  datatype Entity =
    | AirfieldValue(airfield: Airfield)
    | AirshipValue(airship: Airship)
    | FlightValue(flight: Flight)

  /**
   * The types a stored value can be decoded as: the three entities and, in
   * the flight write as written, a bare flight id (a base62 string).
   */
  datatype Shape = AirfieldShape | AirshipShape | FlightShape | FlightIdShape

  function KindOf(e: Entity): Kind {
    match e
    case AirfieldValue(_) => AirfieldKind
    case AirshipValue(_) => AirshipKind
    case FlightValue(_) => FlightKind
  }

  function ShapeOf(kind: Kind): Shape {
    match kind
    case AirfieldKind => AirfieldShape
    case AirshipKind => AirshipShape
    case FlightKind => FlightShape
  }

  function IdOf(e: Entity): string {
    match e
    case AirfieldValue(a) => a.id
    case AirshipValue(a) => a.id
    case FlightValue(f) => f.id
  }

  function Prefix(kind: Kind): string {
    match kind
    case AirfieldKind => "airfield:"
    case AirshipKind => "airship:"
    case FlightKind => "flight:"
  }

  function StorageKey(kind: Kind, id: string): string {
    Prefix(kind) + id
  }

  /** Keys of different kinds never collide ("airfield:", "airship:" and "flight:" differ at their fourth letter), and a key names one id. */
  lemma StorageKeyInjective(k1: Kind, id1: string, k2: Kind, id2: string)
    ensures StorageKey(k1, id1) == StorageKey(k2, id2) <==> k1 == k2 && id1 == id2
  {
    if StorageKey(k1, id1) == StorageKey(k2, id2) {
      assert Prefix(k1)[3] == StorageKey(k1, id1)[3] == StorageKey(k2, id2)[3] == Prefix(k2)[3];
      assert k1 == k2;
      assert id1 == StorageKey(k1, id1)[|Prefix(k1)|..] == StorageKey(k2, id2)[|Prefix(k2)|..] == id2;
    }
  }

  /** `DurableObjectSchedulingRepositoryProtocol`, one prompt/reply pair per direction with the kind alongside. */
  datatype Protocol =
    | GetPrompt(kind: Kind, id: string)
    | GetReply(kind: Kind, getReply: Reply<Versioned<Entity>>)
    | SetPrompt(stored: Versioned<Entity>)
    | SetReply(kind: Kind, setReply: Reply<()>)

  type Storage = map<string, Versioned<Entity>>

  predicate Keyed(storage: Storage) {
    forall key :: key in storage ==> key == StorageKey(KindOf(storage[key].value), IdOf(storage[key].value))
  }

  /** `storage.get::<Versioned<T>>(&key).await.ok()`: the stored value when there is one and it decodes as `shape`. */
  function Read(storage: Storage, key: string, shape: Shape): Option<Versioned<Entity>> {
    if key in storage && ShapeOf(KindOf(storage[key].value)) == shape then Some(storage[key]) else None
  }

  function StoredVersion(storage: Storage, key: string, shape: Shape): Version {
    match Read(storage, key, shape)
    case Some(v) => v.version
    case None => 0
  }

  /** `handle`, given the type each kind's write reads the stored value back as. */
  function RespondReading(storage: Storage, prompt: Protocol, readAs: Kind -> Shape): (Result<Protocol, HandleError>, Storage) {
    match prompt
    case GetPrompt(kind, id) =>
      (match Read(storage, StorageKey(kind, id), ShapeOf(kind))
       case Some(v) => (Ok(GetReply(kind, Success(v))), storage)
       case None => (Ok(GetReply(kind, Reply.NotFound)), storage))
    case SetPrompt(v) =>
      var kind := KindOf(v.value);
      var key := StorageKey(kind, IdOf(v.value));
      if v.version == StoredVersion(storage, key, readAs(kind)) + 1 then (Ok(SetReply(kind, Success(()))), storage[key := v])
      else (Ok(SetReply(kind, Reply.VersionConflict)), storage)
    case _ => (Err(BadEncoding), storage)
  }

  /** The source's reads: the flight write decodes the stored value as a versioned flight id. */
  function ReadAsWritten(kind: Kind): Shape {
    if kind == FlightKind then FlightIdShape else ShapeOf(kind)
  }

  /** `handle` as written. */
  function RespondAsWritten(storage: Storage, prompt: Protocol): (Result<Protocol, HandleError>, Storage) {
    RespondReading(storage, prompt, ReadAsWritten)
  }

  /** `handle` as intended: every write reads the stored value back as its own kind. */
  function Respond(storage: Storage, prompt: Protocol): (Result<Protocol, HandleError>, Storage) {
    RespondReading(storage, prompt, ShapeOf)
  }

  /**
   * As written, a flight write ignores what is stored: it succeeds exactly
   * when it carries version 1. So a flight stored at version 1 is silently
   * overwritten by another version-1 write, and its legitimate next version
   * (2) is refused as a conflict.
   */
  lemma SetFlightAsWrittenIgnoresStoredVersion(storage: Storage, v: Versioned<Entity>, f: Flight, g: Flight)
    requires v.value.FlightValue?
    requires f.id == g.id
    ensures RespondAsWritten(storage, SetPrompt(v)).0 == Ok(SetReply(FlightKind, Success(()))) <==> v.version == 1
    ensures var stored := map[StorageKey(FlightKind, f.id) := Versioned(FlightValue(f), 1)];
      Keyed(stored)
      && RespondAsWritten(stored, SetPrompt(Versioned(FlightValue(g), 2))) == (Ok(SetReply(FlightKind, Reply.VersionConflict)), stored)
      && RespondAsWritten(stored, SetPrompt(Versioned(FlightValue(g), 1))).1 == map[StorageKey(FlightKind, f.id) := Versioned(FlightValue(g), 1)]
  {
    var stored := map[StorageKey(FlightKind, f.id) := Versioned(FlightValue(f), 1)];
    assert StoredVersion(stored, StorageKey(FlightKind, g.id), FlightIdShape) == 0;
  }

  /** A get changes nothing and finds exactly what is stored under the kind's key. */
  lemma RespondGet(storage: Storage, kind: Kind, id: string)
    requires Keyed(storage)
    ensures var (r, after) := Respond(storage, GetPrompt(kind, id));
      after == storage
      && (r == Ok(GetReply(kind, Reply.NotFound)) <==> StorageKey(kind, id) !in storage)
      && (StorageKey(kind, id) in storage ==>
            r == Ok(GetReply(kind, Success(storage[StorageKey(kind, id)])))
            && KindOf(storage[StorageKey(kind, id)].value) == kind
            && IdOf(storage[StorageKey(kind, id)].value) == id)
  {
    var key := StorageKey(kind, id);
    if key in storage {
      var v := storage[key].value;
      StorageKeyInjective(kind, id, KindOf(v), IdOf(v));
    }
  }

  /**
   * As intended, every write, flights included, succeeds exactly when it
   * carries the version after the stored one (0 when absent); on success
   * only its own key changes, on a conflict nothing does.
   */
  lemma RespondSet(storage: Storage, v: Versioned<Entity>)
    requires Keyed(storage)
    ensures var key := StorageKey(KindOf(v.value), IdOf(v.value));
      var existing := if key in storage then storage[key].version else 0;
      var (r, after) := Respond(storage, SetPrompt(v));
      (r == Ok(SetReply(KindOf(v.value), Success(()))) <==> v.version == existing + 1)
      && (r == Ok(SetReply(KindOf(v.value), Reply.VersionConflict)) <==> v.version != existing + 1)
      && (v.version == existing + 1 ==> after == storage[key := v])
      && (v.version != existing + 1 ==> after == storage)
      && Keyed(after)
  {
    var key := StorageKey(KindOf(v.value), IdOf(v.value));
    if key in storage {
      var w := storage[key].value;
      StorageKeyInjective(KindOf(v.value), IdOf(v.value), KindOf(w), IdOf(w));
    }
  }

  /** Airfield and airship writes behave the same as written and as intended: only the flight write differs. */
  lemma AsWrittenDiffersOnlyForFlights(storage: Storage, prompt: Protocol)
    requires !(prompt.SetPrompt? && prompt.stored.value.FlightValue?)
    ensures RespondAsWritten(storage, prompt) == Respond(storage, prompt)
  {
  }

  /** A reply sent as a prompt is refused with `BadEncoding` and changes nothing. */
  lemma RespondRejectsReplies(storage: Storage, prompt: Protocol)
    requires prompt.GetReply? || prompt.SetReply?
    ensures Respond(storage, prompt) == (Err(BadEncoding), storage)
    ensures RespondAsWritten(storage, prompt) == (Err(BadEncoding), storage)
  {
  }

  /** The durable object's storage, updated in place by `handle` (with the flight write corrected). */
  class SchedulingStorage {
    var storage: Storage

    predicate Valid()
      reads this
    {
      Keyed(storage)
    }

    constructor ()
      ensures storage == map[] && Valid()
    {
      storage := map[];
    }

    method Handle(prompt: Protocol) returns (r: Result<Protocol, HandleError>)
      requires Valid()
      modifies this
      ensures Valid()
      ensures (r, storage) == Respond(old(storage), prompt)
    {
      match prompt {
        case GetPrompt(kind, id) =>
          var value := Read(storage, StorageKey(kind, id), ShapeOf(kind));
          if value.Some? {
            r := Ok(GetReply(kind, Success(value.value)));
          } else {
            r := Ok(GetReply(kind, Reply.NotFound));
          }
        case SetPrompt(v) =>
          RespondSet(storage, v);
          var kind := KindOf(v.value);
          var key := StorageKey(kind, IdOf(v.value));
          var existing := Read(storage, key, ShapeOf(kind));
          var existingVersion := if existing.Some? then existing.value.version else 0;
          if v.version == existingVersion + 1 {
            storage := storage[key := v];
            r := Ok(SetReply(kind, Success(())));
          } else {
            r := Ok(SetReply(kind, Reply.VersionConflict));
          }
        case _ =>
          r := Err(BadEncoding);
      }
    }
  }
}
